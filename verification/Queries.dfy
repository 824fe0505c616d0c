/** The read side: what the index answers about the state of an object,
    compared with the state that was indexed. */
module Queries {
  import opened Trees
  import opened Paths
  import opened States
  import opened Digests
  import opened Merkle
  import opened Objects
  import opened Lookup
  import opened Paging
  import Tables

  datatype PathItem = PathItem(name: string, sum: Sum, dir: bool)

  datatype PathInfo = PathInfo(sum: Sum, dir: bool, children: seq<PathItem>, nextCursor: string)

  /** `Panicked` is Go's "slice bounds out of range". */
  datatype Answer = Found(info: PathInfo) | NotFound | InvalidPath | Panicked

  // ----- the answer, read off the indexed state itself -----

  /** The names directly inside a directory. */
  ghost function NamesIn(files: Files, dir: Path): set<string>
  {
    set f | f in files && dir < f :: f[|dir|]
  }

  /** The paths, from a directory, of all files below it. */
  ghost function PathsBelow(files: Files, dir: Path): set<string>
  {
    set f | f in files && dir < f :: Text(f[|dir|..])
  }

  ghost function ItemOf(h: Hash, files: Files, dir: Path, recursive: bool, name: string): PathItem
  {
    var full := dir + (if recursive then Elems(name) else [name]);
    PathItem(name, SumOf(h, files, full), full !in files)
  }

  /** A file's digest, or the recursive digest of a directory. */
  ghost function SumOf(h: Hash, files: Files, p: Path): Sum
  {
    if p in files then files[p]
    else if p in SkeletonOf(files) then Digest(h, TreeAt(SkeletonOf(files), p)) else []
  }

  ghost function ItemsOf(h: Hash, files: Files, dir: Path, recursive: bool, names: seq<string>): (r: seq<PathItem>)
    ensures |r| == |names| && forall i :: 0 <= i < |r| ==> r[i] == ItemOf(h, files, dir, recursive, names[i])
  {
    seq(|names|, i requires 0 <= i < |names| => ItemOf(h, files, dir, recursive, names[i]))
  }

  /** One page, or everything if the limit is negative. */
  ghost function PageOrAll(keys: set<string>, cursor: string, limit: int): Page
    requires limit != 0
  {
    if limit < 0 then Page(After(keys, cursor), "") else PageAfter(keys, cursor, limit)
  }

  /** What a state has at a path: a file with its digest; a directory with one
      page of its immediate children, or of all the files below it; or nothing. A
      limit of -1 is the end of a query about a directory. */
  ghost function AnswerFor(h: Hash, files: Files, p: Path, recursive: bool, limit: int, cursor: string): Answer
    requires limit != 0
  {
    if p in files then Found(PathInfo(files[p], false, [], ""))
    else if !Holds(files, p) then NotFound
    else if limit == -1 then Panicked
    else
      var page := PageOrAll(if recursive then PathsBelow(files, p) else NamesIn(files, p), cursor, limit);
      Found(PathInfo(SumOf(h, files, p), true, ItemsOf(h, files, p, recursive, page.items), page.next))
  }

  /** The version that is asked for; an empty name asks for the head. */
  ghost function VersionWanted(lib: Library, id: string, v: string): Option<VersionInfo>
  {
    if id !in lib then None
    else
      var name := if v == "" then lib[id].head else v;
      if NumOf(name) in lib[id].versions && lib[id].versions[NumOf(name)].name == name
      then Some(lib[id].versions[NumOf(name)]) else None
  }

  function StateLimit(lim: int): (r: int)
    ensures (lim == 0 || lim > 1000 ==> r == 1000) && (lim != 0 && lim <= 1000 ==> r == lim)
  {
    if lim == 0 then 1000 else if lim > 1000 then 1000 else lim
  }

  ghost function StateAnswer(h: Hash, lib: Library, id: string, v: string, p: string, recursive: bool, lim: int,
                             cursor: string): Answer
  {
    if !ValidPath(p) then InvalidPath
    else match VersionWanted(lib, id, v)
      case None => NotFound
      case Some(version) => AnswerFor(h, version.files, Elems(p), recursive, StateLimit(lim), cursor)
  }

  lemma InvalidAnswer(h: Hash, lib: Library, id: string, v: string, p: string, recursive: bool, lim: int,
                      cursor: string)
    ensures StateAnswer(h, lib, id, v, p, recursive, lim, cursor) == InvalidPath <==> !ValidPath(p)
  {
    hide ValidPath, Elems, VersionWanted;
  }

  /** How much of a directory is answered: a thousand items unless a smaller number,
      other than zero, is asked for; all of them, and no cursor, when there are no more
      or when the number is negative. */
  lemma PageOfAnswer(h: Hash, lib: Library, id: string, v: string, p: string, recursive: bool, lim: int,
                     cursor: string)
    ensures var r := StateAnswer(h, lib, id, v, p, recursive, lim, cursor);
            r.Found? && r.info.dir ==>
              && VersionWanted(lib, id, v).Some?
              && var all := After(Keys(VersionWanted(lib, id, v).value.files, Elems(p), recursive), cursor);
                 var size := if 1 <= lim <= 1000 then lim else 1000;
                 && |r.info.children| == (if lim < 0 || |all| <= size then |all| else size)
                 && (forall i :: 0 <= i < |r.info.children| ==> r.info.children[i].name == all[i])
                 && r.info.nextCursor == if lim < 0 || |all| <= size then "" else all[size - 1]
  {
    hide *;
    StateAnswerIs(h, lib, id, v, p, recursive, lim, cursor);
    if ValidPath(p) && VersionWanted(lib, id, v).Some? {
      var files := VersionWanted(lib, id, v).value.files;
      AnswerIs(h, files, Elems(p), recursive, StateLimit(lim), cursor);
      PageOrAllIs(Keys(files, Elems(p), recursive), cursor, StateLimit(lim));
      forall name ensures ItemOf(h, files, Elems(p), recursive, name).name == name {
        ItemNamed(h, files, Elems(p), recursive, name);
      }
    }
  }

  lemma PageOrAllIs(keys: set<string>, cursor: string, limit: int)
    requires limit != 0
    ensures var all, page := After(keys, cursor), PageOrAll(keys, cursor, limit);
            if limit < 0 || |all| <= limit then page.items == all && page.next == ""
            else page.items == all[..limit] && page.next == all[limit - 1]
  {
    hide After, PageAfter;
    if limit > 0 {
      PageIs(keys, cursor, limit);
    }
  }

  /** A limit of -1 is fatal exactly for directories that are there. */
  lemma WhenPanicked(h: Hash, lib: Library, id: string, v: string, p: string, recursive: bool, lim: int,
                     cursor: string)
    ensures StateAnswer(h, lib, id, v, p, recursive, lim, cursor).Panicked? <==>
            && lim == -1 && ValidPath(p) && VersionWanted(lib, id, v).Some?
            && var files := VersionWanted(lib, id, v).value.files; Elems(p) !in files && Holds(files, Elems(p))
  {
    hide *;
    StateAnswerIs(h, lib, id, v, p, recursive, lim, cursor);
    if ValidPath(p) && VersionWanted(lib, id, v).Some? {
      var files := VersionWanted(lib, id, v).value.files;
      AnswerIs(h, files, Elems(p), recursive, StateLimit(lim), cursor);
      StatePaths(files, Elems(p));
    }
  }

  lemma StatePaths(files: Files, p: Path)
    ensures p in SkeletonOf(files) <==> p in files || Holds(files, p)
  {
  }

  lemma ItemNamed(h: Hash, files: Files, dir: Path, recursive: bool, name: string)
    ensures ItemOf(h, files, dir, recursive, name).name == name
  {
    hide SumOf, Elems;
  }

  // ----- rows and what they stand for -----

  /** Row `id` stands for what the state has at `p`. */
  ghost predicate StandsFor(den: Meanings, id: Id, files: Files, p: Path)
  {
    PrefixFree(files) && id in den && p in SkeletonOf(files) && den[id] == TreeAt(SkeletonOf(files), p)
  }

  /** From a row that stands for `p`, a walk along `q` stands for `p + q`. */
  lemma StandsFurther(h: Hash, nodes: Nodes, names: Names, den: Meanings, id: Id, files: Files, p: Path, q: Path)
    requires Graph(h, nodes, names, den, {}) && StandsFor(den, id, files, p)
    ensures var r := Follow(names, id, q);
            if r.Some? then StandsFor(den, r.value, files, p + q) else p + q !in SkeletonOf(files)
  {
    hide Graph, PrefixFree, TreeAt, Follow;
    FollowIsGet(h, nodes, names, den, id, q);
    SkeletonOfIsClosed(files);
    GetTreeAt(SkeletonOf(files), p, q);
  }

  lemma OneStep(h: Hash, nodes: Nodes, names: Names, den: Meanings, id: Id, files: Files, p: Path, n: string)
    requires Graph(h, nodes, names, den, {}) && StandsFor(den, id, files, p)
    ensures if Edge(id, n) in names
            then StandsFor(den, names[Edge(id, n)], files, p + [n]) else p + [n] !in SkeletonOf(files)
  {
    hide Graph, StandsFor;
    NoSteps(names, id);
    FollowAppend(names, id, [], n);
    assert [] + [n] == [n];
    StandsFurther(h, nodes, names, den, id, files, p, [n]);
  }

  /** The key of a row that stands for `p`. */
  lemma KeyThere(h: Hash, nodes: Nodes, names: Names, den: Meanings, id: Id, files: Files, p: Path)
    requires Graph(h, nodes, names, den, {}) && StandsFor(den, id, files, p)
    ensures NodeKey(SumOf(h, files, p), p !in files) in nodes
    ensures forall k :: k in nodes && nodes[k] == id ==> k == NodeKey(SumOf(h, files, p), p !in files)
  {
    hide Storable, PrefixFree;
    assert KeyOf(h, den[id]) == NodeKey(SumOf(h, files, p), p !in files);
  }

  /** The key of a row. */
  method NodeOf(nodes: Nodes, id: Id, ghost h: Hash, ghost names: Names, ghost den: Meanings, ghost files: Files,
                ghost p: Path)
      returns (k: NodeKey)
    requires Graph(h, nodes, names, den, {}) && StandsFor(den, id, files, p)
    ensures k == NodeKey(SumOf(h, files, p), p !in files)
  {
    hide StandsFor, SumOf;
    KeyThere(h, nodes, names, den, id, files, p);
    assert exists k :: k in nodes && nodes[k] == id by {
      StoredUnderKey(h, nodes, names, den, id, files, p);
    }
    k :| k in nodes && nodes[k] == id;
  }

  lemma StoredUnderKey(h: Hash, nodes: Nodes, names: Names, den: Meanings, id: Id, files: Files, p: Path)
    requires Graph(h, nodes, names, den, {}) && StandsFor(den, id, files, p)
    ensures exists k :: k in nodes && nodes[k] == id
  {
    assert nodes[KeyOf(h, den[id])] == id;
  }

  // ----- immediate children -----

  function NamesUnder(names: Names, base: Id): set<string>
  {
    set e | e in names && e.parent == base :: e.name
  }

  lemma NamesUnderMeaning(h: Hash, nodes: Nodes, names: Names, den: Meanings, base: Id, files: Files, p: Path)
    requires Graph(h, nodes, names, den, {}) && StandsFor(den, base, files, p) && p !in files
    ensures NamesUnder(names, base) == NamesIn(files, p)
    ensures forall n :: n in NamesIn(files, p) ==>
              Edge(base, n) in names && StandsFor(den, names[Edge(base, n)], files, p + [n])
  {
    hide Graph, StandsFor;
    forall n ensures n in NamesUnder(names, base) <==> Edge(base, n) in names {
      assert Edge(base, n).name == n;
    }
    forall n ensures n in NamesIn(files, p) <==> Edge(base, n) in names {
      OneStep(h, nodes, names, den, base, files, p, n);
      NameInState(files, p, n);
      if Edge(base, n) in names {
        StandsIn(den, names[Edge(base, n)], files, p + [n]);
      }
    }
    forall n | n in NamesIn(files, p)
      ensures Edge(base, n) in names && StandsFor(den, names[Edge(base, n)], files, p + [n])
    {
      OneStep(h, nodes, names, den, base, files, p, n);
    }
  }

  lemma StandsIn(den: Meanings, id: Id, files: Files, p: Path)
    requires StandsFor(den, id, files, p)
    ensures p in SkeletonOf(files) && id in den
  {
  }

  lemma NameInState(files: Files, p: Path, n: string)
    ensures n in NamesIn(files, p) <==> p + [n] in SkeletonOf(files)
  {
    if n in NamesIn(files, p) {
      var f :| f in files && p < f && f[|p|] == n;
      assert f[..|p| + 1] == p + [n];
      assert p + [n] == f || Holds(files, p + [n]);
    }
    if p + [n] in SkeletonOf(files) {
      var f :| f in files && p + [n] <= f;
      assert f[|p|] == (p + [n])[|p|] && p < f;
    }
  }

  /** One page, and one row more, of the children of a directory. */
  method GetNodeChildren(nodes: Nodes, names: Names, base: Id, limit: int, cursor: string,
                         ghost h: Hash, ghost den: Meanings, ghost files: Files, ghost p: Path)
      returns (items: seq<PathItem>)
    requires Graph(h, nodes, names, den, {}) && StandsFor(den, base, files, p) && p !in files
    ensures items == ItemsOf(h, files, p, false, FirstOf(After(NamesIn(files, p), cursor), limit))
  {
    hide *;
    NamesUnderMeaning(h, nodes, names, den, base, files, p);
    AfterMembers(NamesIn(files, p), cursor, limit);
    FirstOfIs(After(NamesIn(files, p), cursor), limit);
    var rows := SelectAfter(NamesUnder(names, base), cursor, limit);
    items := [];
    while |items| < |rows|
      invariant |items| <= |rows|
      invariant forall i :: 0 <= i < |items| ==> items[i] == ItemOf(h, files, p, false, rows[i])
    {
      var n := rows[|items|];
      assert n in rows;
      var k := NodeOf(nodes, names[Edge(base, n)], h, names, den, files, p + [n]);
      ItemIs(h, files, p, n);
      items := items + [PathItem(n, k.sum, k.dir)];
    }
  }

  lemma ItemIs(h: Hash, files: Files, p: Path, n: string)
    ensures ItemOf(h, files, p, false, n) == PathItem(n, SumOf(h, files, p + [n]), p + [n] !in files)
  {
  }

  ghost function FirstOf(s: seq<string>, limit: int): seq<string>
  {
    if limit < 0 || |s| <= limit then s else s[..limit]
  }

  lemma FirstOfIs(s: seq<string>, limit: int)
    ensures FirstOf(s, limit) == if limit < 0 || |s| <= limit then s else s[..limit]
  {
  }

  lemma AfterMembers(keys: set<string>, cursor: string, limit: int)
    ensures forall n :: n in FirstOf(After(keys, cursor), limit) ==> n in keys
  {
    var all := After(keys, cursor);
    assert forall n :: n in FirstOf(all, limit) ==> n in all;
  }

  // ----- all files below -----

  predicate IsFile(nodes: Nodes, id: Id)
  {
    exists k :: k in nodes && nodes[k] == id && !k.dir
  }

  function FilePaths(nodes: Nodes, rows: set<Row>): set<string>
  {
    set r | r in rows && IsFile(nodes, r.id) :: r.path
  }

  lemma IsFileThere(h: Hash, nodes: Nodes, names: Names, den: Meanings, id: Id, files: Files, p: Path)
    requires Graph(h, nodes, names, den, {}) && StandsFor(den, id, files, p)
    ensures IsFile(nodes, id) <==> p in files
  {
    hide Graph, StandsFor, SumOf;
    KeyThere(h, nodes, names, den, id, files, p);
    StoredUnderKey(h, nodes, names, den, id, files, p);
  }

  lemma FilePathsMeaning(h: Hash, nodes: Nodes, names: Names, den: Meanings, base: Id, files: Files, p: Path,
                         rows: set<Row>)
    requires Graph(h, nodes, names, den, {}) && StandsFor(den, base, files, p) && p !in files
    requires AllBelow(names, base, rows)
    ensures FilePaths(nodes, rows) == PathsBelow(files, p)
    ensures forall r :: r in rows && r.path in PathsBelow(files, p) ==>
              StandsFor(den, r.id, files, p + Elems(r.path)) && p + Elems(r.path) in files
  {
    hide Graph, StandsFor, Follow, Text, ValidName, IsFile, Elems, AllBelow;
    forall r | r in rows ensures exists q :: RowStands(h, nodes, names, den, base, files, p, r, q) {
      RowStandsFor(h, nodes, names, den, base, files, p, rows, r);
    }
    forall t ensures t in FilePaths(nodes, rows) <==> t in PathsBelow(files, p) {
      if t in FilePaths(nodes, rows) {
        var r :| r in rows && IsFile(nodes, r.id) && r.path == t;
        var q :| RowStands(h, nodes, names, den, base, files, p, r, q);
        assert p < p + q && (p + q)[|p|..] == q;
      }
      if t in PathsBelow(files, p) {
        var f :| f in files && p < f && Text(f[|p|..]) == t;
        FileHasRow(h, nodes, names, den, base, files, p, rows, f);
      }
    }
    forall r | r in rows && r.path in PathsBelow(files, p)
      ensures StandsFor(den, r.id, files, p + Elems(r.path)) && p + Elems(r.path) in files
    {
      var q :| RowStands(h, nodes, names, den, base, files, p, r, q);
      var f :| f in files && p < f && Text(f[|p|..]) == r.path;
      FileNamesValid(h, nodes, names, den, base, files, p, f);
      TextIsInjective(q, f[|p|..]);
      assert p + f[|p|..] == f;
      ElemsOfText(q);
    }
  }

  ghost predicate RowStands(h: Hash, nodes: Nodes, names: Names, den: Meanings, base: Id, files: Files, p: Path,
                            r: Row, q: Path)
  {
    && q != [] && ValidNames(q) && r.path == Text(q) && StandsFor(den, r.id, files, p + q)
    && (IsFile(nodes, r.id) <==> p + q in files)
  }

  lemma RowStandsFor(h: Hash, nodes: Nodes, names: Names, den: Meanings, base: Id, files: Files, p: Path,
                     rows: set<Row>, r: Row)
    requires Graph(h, nodes, names, den, {}) && StandsFor(den, base, files, p) && AllBelow(names, base, rows)
    requires r in rows
    ensures exists q :: RowStands(h, nodes, names, den, base, files, p, r, q)
  {
    hide Graph, StandsFor, Follow, Text, ValidName, IsFile, ValidNames;
    var d: nat :| d > 0 && At(names, base, d, r);
    var q :| |q| == d && LeadsTo(names, base, q, r);
    StandsFurther(h, nodes, names, den, base, files, p, q);
    IsFileThere(h, nodes, names, den, r.id, files, p + q);
    assert RowStands(h, nodes, names, den, base, files, p, r, q);
  }

  lemma FileNamesValid(h: Hash, nodes: Nodes, names: Names, den: Meanings, base: Id, files: Files, p: Path, f: Path)
    requires Graph(h, nodes, names, den, {}) && StandsFor(den, base, files, p) && f in files && p <= f
    ensures ValidNames(f[|p|..])
    ensures Follow(names, base, f[|p|..]).Some? && StandsFor(den, Follow(names, base, f[|p|..]).value, files, f)
  {
    hide PrefixFree, TreeAt, Follow, ValidName, KeyOf, PlainNames, AllNames;
    var q := f[|p|..];
    assert p + q == f && f in SkeletonOf(files);
    StandsFurther(h, nodes, names, den, base, files, p, q);
    FollowIsGet(h, nodes, names, den, base, q);
    AllNamesBelow(den[base], ValidName, q);
  }

  lemma FileHasRow(h: Hash, nodes: Nodes, names: Names, den: Meanings, base: Id, files: Files, p: Path,
                   rows: set<Row>, f: Path)
    requires Graph(h, nodes, names, den, {}) && StandsFor(den, base, files, p) && AllBelow(names, base, rows)
    requires f in files && p < f
    ensures Text(f[|p|..]) in FilePaths(nodes, rows)
  {
    hide Graph, StandsFor, Follow, Text, ValidNames, IsFile;
    FileNamesValid(h, nodes, names, den, base, files, p, f);
    var id := Follow(names, base, f[|p|..]).value;
    IsFileThere(h, nodes, names, den, id, files, f);
    assert LeadsTo(names, base, f[|p|..], Row(id, Text(f[|p|..])));
    assert Row(id, Text(f[|p|..])) in rows;
  }

  /** One page, and one row more, of the files below a directory. */
  method GetNodeChildrenAll(nodes: Nodes, names: Names, base: Id, limit: int, cursor: string,
                            ghost h: Hash, ghost den: Meanings, ghost files: Files, ghost p: Path)
      returns (items: seq<PathItem>)
    requires Graph(h, nodes, names, den, {}) && StandsFor(den, base, files, p) && p !in files
    ensures items == ItemsOf(h, files, p, true, FirstOf(After(PathsBelow(files, p), cursor), limit))
  {
    hide *;
    StandsIn(den, base, files, p);
    var below := ListBelow(names, base, h, nodes, den);
    FilePathsMeaning(h, nodes, names, den, base, files, p, below);
    AfterMembers(PathsBelow(files, p), cursor, limit);
    FirstOfIs(After(PathsBelow(files, p), cursor), limit);
    var rows := SelectAfter(FilePaths(nodes, below), cursor, limit);
    items := [];
    while |items| < |rows|
      invariant |items| <= |rows|
      invariant forall i :: 0 <= i < |items| ==> items[i] == ItemOf(h, files, p, true, rows[i])
    {
      var t := rows[|items|];
      assert t in rows;
      PathHasRow(nodes, below, t);
      var r :| r in below && r.path == t;
      var k := NodeOf(nodes, r.id, h, names, den, files, p + Elems(t));
      FileItemIs(h, files, p, t);
      items := items + [PathItem(t, k.sum, false)];
    }
  }

  lemma PathHasRow(nodes: Nodes, rows: set<Row>, t: string)
    requires t in FilePaths(nodes, rows)
    ensures exists r :: r in rows && r.path == t
  {
  }

  lemma FileItemIs(h: Hash, files: Files, p: Path, t: string)
    requires p + Elems(t) in files
    ensures ItemOf(h, files, p, true, t) == PathItem(t, SumOf(h, files, p + Elems(t)), false)
  {
  }

  // ----- the whole answer -----

  /** The version row that the first part of the lookup query selects. */
  ghost predicate RowWanted(tx: Tables.Tx, id: string, v: string, key: VersionKey)
    reads tx
  {
    && id in tx.invs && key in tx.versions && key.inv == tx.invs[id].id
    && tx.versions[key].name == if v == "" then tx.invs[id].head else v
  }

  lemma RowWantedMeaning(tx: Tables.Tx, id: string, v: string)
    requires tx.Shows({})
    ensures id in tx.invs <==> id in tx.lib
    ensures VersionWanted(tx.lib, id, v).None? ==> forall key :: !RowWanted(tx, id, v, key)
    ensures VersionWanted(tx.lib, id, v).Some? ==>
              (exists key :: RowWanted(tx, id, v, key)) &&
              forall key :: RowWanted(tx, id, v, key) ==>
                StandsFor(tx.den, tx.versions[key].node, VersionWanted(tx.lib, id, v).value.files, [])
  {
    hide RootsShown, ContentShown, ContentComplete, TreeAt, PrefixFree, NumOf, VersionsShown;
    SameIds(tx.roots, tx.invs, tx.lib);
    if id in tx.invs {
      var name := if v == "" then tx.lib[id].head else v;
      assert tx.invs[id].head == tx.lib[id].head;
      forall key | RowWanted(tx, id, v, key)
        ensures VersionWanted(tx.lib, id, v).Some?
        ensures StandsFor(tx.den, tx.versions[key].node, VersionWanted(tx.lib, id, v).value.files, [])
      {
        VersionRowThere(tx.roots, tx.invs, tx.versions, tx.den, tx.lib, id, key.num);
        assert key == VersionKey(tx.invs[id].id, key.num);
      }
      VersionRowThere(tx.roots, tx.invs, tx.versions, tx.den, tx.lib, id, NumOf(name));
      if VersionWanted(tx.lib, id, v).Some? {
        assert RowWanted(tx, id, v, VersionKey(tx.invs[id].id, NumOf(name)));
      }
    }
  }

  /** Looks a path up in a version of an object: exactly the answer that the
      indexed state itself gives. The path has been cleaned. */
  method GetObjectState(tx: Tables.Tx, id: string, v: string, p: string, recursive: bool, lim: int, cursor: string,
                        ghost h: Hash)
      returns (r: Answer)
    requires tx.Valid(h)
    ensures r == StateAnswer(h, tx.lib, id, v, p, recursive, lim, cursor)
    ensures r == Panicked <==>
            && lim == -1 && ValidPath(p) && VersionWanted(tx.lib, id, v).Some?
            && var files := VersionWanted(tx.lib, id, v).value.files; Elems(p) !in files && Holds(files, Elems(p))
    ensures r == InvalidPath <==>
            p != "." && (HasElement(p, "") || HasElement(p, ".") || HasElement(p, ".."))
    ensures r.Found? && r.info.dir ==>
              && VersionWanted(tx.lib, id, v).Some?
              && var all := After(Keys(VersionWanted(tx.lib, id, v).value.files, Elems(p), recursive), cursor);
                 var size := if 1 <= lim <= 1000 then lim else 1000;
                 && |r.info.children| == (if lim < 0 || |all| <= size then |all| else size)
                 && (forall i :: 0 <= i < |r.info.children| ==> r.info.children[i].name == all[i])
                 && r.info.nextCursor == if lim < 0 || |all| <= size then "" else all[size - 1]
  {
    hide *;
    ValidPathMeaning(p);
    InvalidAnswer(h, tx.lib, id, v, p, recursive, lim, cursor);
    WhenPanicked(h, tx.lib, id, v, p, recursive, lim, cursor);
    PageOfAnswer(h, tx.lib, id, v, p, recursive, lim, cursor);
    tx.ValidIs(h);
    tx.InGraphIs(h, {});
    StateAnswerIs(h, tx.lib, id, v, p, recursive, lim, cursor);
    var limit := StateLimit(lim);
    if !ValidPath(p) {
      return InvalidPath;
    }
    RowWantedMeaning(tx, id, v);
    if id !in tx.invs {
      return NotFound;
    }
    var name := if v == "" then tx.invs[id].head else v;
    WantedIs(tx, id, v);
    if key :| key in tx.versions && key.inv == tx.invs[id].id && tx.versions[key].name == name {
      assert RowWanted(tx, id, v, key);
      ghost var files := VersionWanted(tx.lib, id, v).value.files;
      r := LookUp(tx.nodes, tx.names, tx.versions[key].node, p, recursive, limit, cursor, h, tx.den, files);
    } else {
      r := NotFound;
    }
  }

  lemma WantedIs(tx: Tables.Tx, id: string, v: string)
    requires id in tx.invs
    ensures forall key :: RowWanted(tx, id, v, key) <==>
              key in tx.versions && key.inv == tx.invs[id].id
                && tx.versions[key].name == if v == "" then tx.invs[id].head else v
    ensures VersionWanted(tx.lib, id, v).Some? ==> id in tx.lib
  {
  }

  lemma StateAnswerIs(h: Hash, lib: Library, id: string, v: string, p: string, recursive: bool, lim: int,
                      cursor: string)
    ensures StateAnswer(h, lib, id, v, p, recursive, lim, cursor) ==
            if !ValidPath(p) then InvalidPath
            else if VersionWanted(lib, id, v).None? then NotFound
            else AnswerFor(h, VersionWanted(lib, id, v).value.files, Elems(p), recursive, StateLimit(lim), cursor)
    ensures id !in lib ==> VersionWanted(lib, id, v).None?
  {
  }

  /** From the version's root row on. */
  method LookUp(nodes: Nodes, names: Names, root: Id, p: string, recursive: bool, limit: int, cursor: string,
                ghost h: Hash, ghost den: Meanings, ghost files: Files) returns (r: Answer)
    requires Graph(h, nodes, names, den, {}) && StandsFor(den, root, files, []) && ValidPath(p) && limit != 0
    ensures r == AnswerFor(h, files, Elems(p), recursive, limit, cursor)
  {
    hide *;
    StandsIn(den, root, files, []);
    StandsFurther(h, nodes, names, den, root, files, [], Elems(p));
    ghost var es := Elems(p);
    assert [] + es == es;
    var found := FindNode(names, root, p, h, nodes, den);
    AnswerIs(h, files, es, recursive, limit, cursor);
    if found.None? {
      return NotFound;
    }
    var base := NodeOf(nodes, found.value, h, names, den, files, es);
    StandsIn(den, found.value, files, es);
    if !base.dir {
      return Found(PathInfo(base.sum, false, [], ""));
    }
    var children;
    if recursive {
      children := GetNodeChildrenAll(nodes, names, found.value, limit + 1, cursor, h, den, files, es);
    } else {
      children := GetNodeChildren(nodes, names, found.value, limit + 1, cursor, h, den, files, es);
    }
    CutChildren(h, files, es, recursive, limit, cursor);
    var next := "";
    if |children| == limit + 1 {
      if limit < 0 {
        return Panicked;
      }
      next := children[limit - 1].name;
      children := children[..limit];
    }
    r := Found(PathInfo(base.sum, true, children, next));
  }

  ghost function Keys(files: Files, p: Path, recursive: bool): set<string>
  {
    if recursive then PathsBelow(files, p) else NamesIn(files, p)
  }

  lemma AnswerIs(h: Hash, files: Files, p: Path, recursive: bool, limit: int, cursor: string)
    requires limit != 0
    ensures p in SkeletonOf(files) <==> p in files || Holds(files, p)
    ensures p in files ==>
              AnswerFor(h, files, p, recursive, limit, cursor) == Found(PathInfo(files[p], false, [], "")) &&
                           SumOf(h, files, p) == files[p]
    ensures p !in SkeletonOf(files) ==> AnswerFor(h, files, p, recursive, limit, cursor) == NotFound
    ensures p in SkeletonOf(files) && p !in files ==>
              var page := PageOrAll(Keys(files, p, recursive), cursor, limit);
              AnswerFor(h, files, p, recursive, limit, cursor) ==
              if limit == -1 then Panicked
              else Found(PathInfo(SumOf(h, files, p), true, ItemsOf(h, files, p, recursive, page.items), page.next))
    ensures Keys(files, p, true) == PathsBelow(files, p) && Keys(files, p, false) == NamesIn(files, p)
  {
    hide PathsBelow, NamesIn, PageOrAll, ItemsOf;
  }

  /** Cutting the extra row off the children leaves the page. Without a limit there is
      none, and with a limit of -1 there are no rows at all. */
  lemma CutChildren(h: Hash, files: Files, p: Path, recursive: bool, limit: int, cursor: string)
    requires limit != 0
    ensures var rows := ItemsOf(h, files, p, recursive, FirstOf(After(Keys(files, p, recursive), cursor), limit + 1));
            var page := PageOrAll(Keys(files, p, recursive), cursor, limit);
            && (|rows| == limit + 1 ==> limit == -1 || limit > 0)
            && (limit == -1 ==> |rows| == 0)
            && (|rows| == limit + 1 && limit > 0 ==>
                  rows[..limit] == ItemsOf(h, files, p, recursive, page.items) && page.next == rows[limit - 1].name)
            && (|rows| != limit + 1 ==> rows == ItemsOf(h, files, p, recursive, page.items) && page.next == "")
  {
    hide Keys, SumOf, After;
    var all := After(Keys(files, p, recursive), cursor);
  }

  // ----- where a file's content is stored -----

  /** Some version of some object has a file with the digest. */
  ghost predicate SomeFile(lib: Library, sum: Sum)
  {
    exists i, n, f :: FileIs(lib, i, n, f, sum)
  }

  ghost predicate FileIs(lib: Library, i: string, n: nat, f: Path, sum: Sum)
  {
    i in lib && n in lib[i].versions && f in lib[i].versions[n].files && lib[i].versions[n].files[f] == sum
  }

  /** The object at the root stores content with the digest at the path. */
  ghost predicate StoredAt(lib: Library, sum: Sum, root: string, path: string)
  {
    exists i :: i in lib && lib[i].root == root && Content(path, sum) in lib[i].manifest
  }

  /** A row of the join of content, inventory, root and node rows. */
  predicate Joined(tx: Tables.Tx, sum: Sum, key: ContentKey, i: string, p: string)
    reads tx
  {
    && key in tx.content && i in tx.invs && tx.invs[i].id == key.inv
    && p in tx.roots && tx.roots[p].id == tx.invs[i].rootId
    && NodeKey(sum, false) in tx.nodes && tx.nodes[NodeKey(sum, false)] == key.node
  }

  lemma JoinedIsStored(tx: Tables.Tx, h: Hash, sum: Sum, key: ContentKey, i: string, p: string)
    requires tx.Valid(h) && Joined(tx, sum, key, i, p)
    ensures StoredAt(tx.lib, sum, p, tx.content[key])
  {
    hide VersionsShown, ContentComplete, TrueEdges;
    var j :| OwnsContent(tx.invs, tx.lib, j, key.inv, Content(tx.content[key], tx.den[key.node].sum));
    assert j == i;
  }

  lemma StoredHasRow(tx: Tables.Tx, h: Hash, i: string, sum: Sum)
    requires tx.Valid(h) && i in tx.invs && HasContent(tx.content, tx.nodes, tx.invs[i].id, sum)
    ensures exists key, i, p :: Joined(tx, sum, key, i, p)
  {
    hide VersionsShown, ContentComplete, Graph, ContentShown;
    var key := ContentKey(tx.invs[i].id, tx.nodes[NodeKey(sum, false)]);
    assert Joined(tx, sum, key, i, tx.lib[i].root);
  }

  lemma FileHasContent(tx: Tables.Tx, h: Hash, i: string, n: nat, f: Path, sum: Sum)
    requires tx.Valid(h) && FileIs(tx.lib, i, n, f, sum)
    ensures i in tx.invs && HasContent(tx.content, tx.nodes, tx.invs[i].id, sum)
  {
    hide VersionsShown, Graph, ContentShown, RootsShown;
    assert CompleteFor(tx.content, tx.nodes, tx.invs[i].id, tx.lib[i].versions);
  }

  /** Where to find content with a digest: a place that holds it, and there is one
      for every file of every version of every object. */
  method GetContentPath(tx: Tables.Tx, sum: Sum, ghost h: Hash) returns (r: Option<(string, string)>)
    requires tx.Valid(h)
    ensures r.Some? ==> StoredAt(tx.lib, sum, r.value.0, r.value.1)
    ensures r.Some? <==> exists i :: i in tx.invs && HasContent(tx.content, tx.nodes, tx.invs[i].id, sum)
    ensures SomeFile(tx.lib, sum) ==> r.Some?
  {
    hide *;
    if key, i, p :| key in tx.content && i in tx.invs && p in tx.roots && Joined(tx, sum, key, i, p) {
      JoinedIsStored(tx, h, sum, key, i, p);
      JoinedHasContent(tx, sum, key, i, p);
      r := Some((p, tx.content[key]));
    } else {
      r := None;
      if i :| i in tx.invs && HasContent(tx.content, tx.nodes, tx.invs[i].id, sum) {
        StoredHasRow(tx, h, i, sum);
        var key, j, p :| Joined(tx, sum, key, j, p);
        JoinedHasContent(tx, sum, key, j, p);
      }
    }
    if SomeFile(tx.lib, sum) {
      SomeFileHasContent(tx, h, sum);
    }
  }

  lemma JoinedHasContent(tx: Tables.Tx, sum: Sum, key: ContentKey, i: string, p: string)
    requires Joined(tx, sum, key, i, p)
    ensures key in tx.content && i in tx.invs && p in tx.roots && HasContent(tx.content, tx.nodes, tx.invs[i].id, sum)
  {
  }

  lemma SomeFileHasContent(tx: Tables.Tx, h: Hash, sum: Sum)
    requires tx.Valid(h) && SomeFile(tx.lib, sum)
    ensures exists i :: i in tx.invs && HasContent(tx.content, tx.nodes, tx.invs[i].id, sum)
  {
    hide FileIs, HasContent;
    var i, n, f :| FileIs(tx.lib, i, n, f, sum);
    FileHasContent(tx, h, i, n, f, sum);
  }

  ghost predicate IsFileOf(files: Files, sum: Sum)
  {
    exists f :: f in files && files[f] == sum
  }

  lemma AnswerNamesFiles(h: Hash, files: Files, p: Path, recursive: bool, limit: int, cursor: string)
    requires limit != 0 && AnswerFor(h, files, p, recursive, limit, cursor).Found?
    ensures var info := AnswerFor(h, files, p, recursive, limit, cursor).info;
            && (!info.dir ==> IsFileOf(files, info.sum))
            && forall item :: item in info.children && !item.dir ==> IsFileOf(files, item.sum)
  {
    hide PageAfter, NamesIn, PathsBelow, Holds, Elems;
    var info := AnswerFor(h, files, p, recursive, limit, cursor).info;
    forall item | item in info.children && !item.dir ensures IsFileOf(files, item.sum) {
      var full := p + (if recursive then Elems(item.name) else [item.name]);
      assert full in files && files[full] == item.sum;
    }
  }

  /** So each file that a path query answers with, as itself or as an item, has a
      place where it can be found. */
  lemma AnswersAreStored(lib: Library, h: Hash, id: string, v: string, p: string, recursive: bool, lim: int,
                         cursor: string)
    requires StateAnswer(h, lib, id, v, p, recursive, lim, cursor).Found?
    ensures var info := StateAnswer(h, lib, id, v, p, recursive, lim, cursor).info;
            && (!info.dir ==> SomeFile(lib, info.sum))
            && forall item :: item in info.children && !item.dir ==> SomeFile(lib, item.sum)
  {
    hide AnswerFor, ValidPath, Elems, NumOf;
    var name := if v == "" then lib[id].head else v;
    var files := lib[id].versions[NumOf(name)].files;
    AnswerNamesFiles(h, files, Elems(p), recursive, StateLimit(lim), cursor);
    forall sum | IsFileOf(files, sum) ensures SomeFile(lib, sum) {
      var f :| f in files && files[f] == sum;
      assert FileIs(lib, id, NumOf(name), f, sum);
    }
  }
}
