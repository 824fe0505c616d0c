/** Concrete cases in which what a reader might expect does not hold. */
module Cases {
  import opened Trees
  import opened Paths
  import opened States
  import opened Digests
  import opened IndexTree
  import opened Merkle
  import opened Objects
  import opened Tables
  import opened Indexer
  import opened Runs

  // ----- an inventory whose head is lost -----

  function OneVersion(name: string, digest: string): Inventory
  {
    Inventory("o", "1.0", "sha512", digest, 1, map[1 := Version(name, map[], "", 0, None)], map[])
  }

  lemma NumbersOfNames()
    ensures NumOf("v1") == 1 && NumOf("v001") == 1
  {
    assert "v1"[1..] == "1" && "v001"[1..] == "001" && "1"[..0] == "";
    assert "001"[..2] == "00" && "00"[..1] == "0" && "0"[..0] == "";
    assert DigitsValue("0") == 0 && DigitsValue("00") == 0;
  }

  lemma OneVersionValid(name: string, digest: string)
    requires NumOf(name) == 1 && name != ""
    ensures Validated(OneVersion(name, digest))
  {
    hide NumOf;
  }

  /** The library once it is indexed, and once it is indexed again. */
  ghost function Once(): Library
  {
    map["o" := Indexed(map[], OneVersion("v1", "d"), "p")]
  }

  ghost function Twice(): Library
  {
    Once()["o" := Indexed(Once(), OneVersion("v001", "e"), "p")]
  }

  lemma FirstFits()
    ensures Acceptable(map[], OneVersion("v1", "d"), "p")
  {
  }

  lemma ThenFits()
    ensures Acceptable(Once(), OneVersion("v001", "e"), "p")
  {
    hide Once, Agrees, FilesOf;
    OnceIs();
    SameButForTheName();
  }

  lemma SameButForTheName()
    ensures Agrees(VersionInfo("v1", FilesOf(map[]), "", 0, "", ""), Version("v001", map[], "", 0, None))
  {
    hide FilesOf;
  }

  lemma OnceIs()
    ensures Once().Keys == {"o"} && Once()["o"].versions == map[1 := VersionInfo("v1", FilesOf(map[]), "", 0, "", "")]
    ensures Once()["o"].root == "p"
  {
    hide FilesOf;
  }

  lemma TwiceIs()
    ensures Twice().Keys == {"o"} && Twice()["o"].versions == Once()["o"].versions && Twice()["o"].head == "v001"
  {
    OnceIs();
    hide FilesOf, Once;
  }

  lemma BothIndexed()
    ensures IsHistory([map[], Once(), Twice()],
              [Index(OneVersion("v1", "d"), "p"), Index(OneVersion("v001", "e"), "p")])
  {
    hide NumOf, Acceptable, Validated, Indexed;
    NumbersOfNames();
    OneVersionValid("v1", "d");
    OneVersionValid("v001", "e");
    FirstFits();
    ThenFits();
  }

  /** An inventory calls its version v1 and later v001. It can be indexed and
      indexed again; then the head is not found, although version v1 is. */
  lemma HeadCanBeLost()
    ensures IsHistory([map[], Once(), Twice()],
              [Index(OneVersion("v1", "d"), "p"), Index(OneVersion("v001", "e"), "p")])
    ensures Queries.VersionWanted(Twice(), "o", "") == None && Queries.VersionWanted(Twice(), "o", "v1").Some?
  {
    hide NumOf, IsHistory, Twice, Once, FilesOf;
    BothIndexed();
    NumbersOfNames();
    OnceIs();
    TwiceIs();
  }

  // ----- an object whose content rows grow when it is indexed again -----

  /** An object without files, whose manifest stores one all the same. */
  function Storing(): Inventory
  {
    Inventory("a", "1.0", "sha512", "d", 1, map[1 := Version("v1", map[], "", 0, None)], map["v1/content/x" := [1]])
  }

  /** Another object with that file. */
  function Using(): Inventory
  {
    Inventory("b", "1.0", "sha512", "e", 1, map[1 := Version("v1", map["x" := [1]], "", 0, None)],
              map["v1/content/x" := [1]])
  }

  lemma OneName()
    ensures Elems("x") == ["x"] && Text(["x"]) == "x" && ValidPath("x")
    ensures FilesOf(map["x" := [1]]) == map[["x"] := [1]] && FilesOf(map[]) == map[]
  {
    ElemsOfText(["x"]);
    hide Elems, ValidPath, Text;
    assert ["x"] in FilesOf(map["x" := [1]]);
    forall p | p in FilesOf(map["x" := [1]]) ensures p == ["x"] {
      assert Text(p) == "x";
    }
    assert FilesOf(map["x" := [1]]).Keys == {["x"]};
    assert FilesOf(map[]).Keys == {};
  }

  lemma StoringValid()
    ensures Validated(Storing()) && Acceptable(map[], Storing(), "p")
  {
    NumbersOfNames();
    OneName();
    hide NumOf, FilesOf;
  }

  lemma UsingValid(lib: Library)
    requires lib.Keys == {"a"} && lib["a"].root == "p"
    ensures Validated(Using()) && Acceptable(lib, Using(), "q")
  {
    NumbersOfNames();
    OneName();
    hide NumOf, FilesOf, ValidPath;
    assert "v1/content/x" in Using().manifest && Using().manifest["v1/content/x"] == [1];
  }

  /** The first has no file in any state, and so no content rows. */
  lemma NothingStored(tx: Tx, h: Hash)
    requires tx.Valid(h) && OnlyStates(map[], tx.den, Storing())
    ensures tx.content == map[]
  {
    hide RootsShown, InvsShown, VersionsShown, ContentComplete, Graph, IsPart, StateTree, FilesOf;
    OneName();
    if k :| k in tx.content {
      var n :| n in Storing().versions && IsPart(tx.den[k.node], StateTree(FilesOf(Storing().versions[n].state)));
      NoFiles(tx.den[k.node]);
    }
  }

  lemma NoFiles(t: Tree)
    requires IsPart(t, StateTree(map[]))
    ensures t.Dir?
  {
    hide StateTree;
    var p :| Get(StateTree(map[]), p) == Some(t);
    StateTreeMeaning(map[], p);
  }

  /** Of the two, only the second has content rows; the file has a node. */
  lemma OnlySecond(tx: Tx, h: Hash)
    requires tx.Valid(h) && "a" in tx.lib && "b" in tx.lib
    requires tx.lib["b"].versions == map[1 := InfoOf(Using().versions[1])]
    requires "b" in tx.invs && OnlyFor(map[], tx.content, tx.invs["b"].id)
    ensures "a" in tx.invs
    ensures !Listed(tx.content, tx.nodes, tx.invs["a"].id, Storing().manifest, Storing().manifest.Keys)
  {
    hide Graph, RootsShown, VersionsShown, ContentShown, FilesOf;
    OneName();
    assert CompleteFor(tx.content, tx.nodes, tx.invs["b"].id, tx.lib["b"].versions);
    assert tx.lib["b"].versions[1].files[["x"]] == [1];
    assert HasContent(tx.content, tx.nodes, tx.invs["b"].id, [1]);
    assert tx.invs["a"].id != tx.invs["b"].id;
    assert Storing().manifest["v1/content/x"] == [1];
    assert !HasContent(tx.content, tx.nodes, tx.invs["a"].id, [1]);
  }

  /** The library with the first object, and with both. */
  ghost function One(): Library
  {
    map["a" := Indexed(map[], Storing(), "p")]
  }

  ghost function Two(): Library
  {
    One()["b" := Indexed(One(), Using(), "q")]
  }

  lemma TwoIs()
    ensures One().Keys == {"a"} && One()["a"].root == "p" && Two().Keys == {"a", "b"}
    ensures Two()["b"].versions == map[1 := InfoOf(Using().versions[1])]
    ensures UpToDate(Two(), Storing(), "p")
  {
    hide InfoOf, UpToDate, FilesOf;
    StoringValid();
    IndexedIsUpToDate(map[], Storing(), "p");
    IndexedRoot(map[], Storing(), "p");
    IndexedRoot(One(), Using(), "q");
    OthersKeepUpToDate(One(), Storing(), "p", Two());
  }

  lemma TwoSteps()
    ensures Storing().id == "a" && Using().id == "b"
    ensures Storing().head in Storing().versions && Using().head in Using().versions
    ensures One() == map[]["a" := Indexed(map[], Storing(), "p")] && Two() == One()["b" := Indexed(One(), Using(), "q")]
  {
    hide Indexed;
  }

  lemma NoneHasNewline()
    ensures NoNewlines(Storing()) && NoNewlines(Using())
  {
  }

  lemma Plain(h: Hash)
    requires CollisionFree(h)
    ensures KeysTell(h, PlainTrees()) && StatesIn(Storing(), PlainTrees()) && StatesIn(Using(), PlainTrees())
  {
    hide *;
    NoneHasNewline();
    StoringValid();
    TwoIs();
    UsingValid(One());
    PlainStatesIn(h, Storing());
    PlainStatesIn(h, Using());
  }

  lemma NothingStocked()
    ensures Stocked(map[], PlainTrees())
  {
  }

  method IndexBoth(h: Hash) returns (tx: Tx)
    requires CollisionFree(h)
    ensures fresh(tx) && tx.Valid(h) && tx.lib == Two() && "a" in tx.invs && Stocked(tx.den, PlainTrees())
    ensures !Listed(tx.content, tx.nodes, tx.invs["a"].id, Storing().manifest, Storing().manifest.Keys)
  {
    hide *;
    tx := new Tx.Empty(h);
    Plain(h);
    NothingStocked();
    StoringValid();
    TwoSteps();
    TwoIs();
    var r := tx.IndexObjectInventory(h, "p", 0, Storing(), PlainTrees());
    NothingStored(tx, h);
    assert tx.lib == One();
    UsingValid(One());
    r := tx.IndexObjectInventory(h, "q", 0, Using(), PlainTrees());
    OnlySecond(tx, h);
  }

  /** An object is indexed, another object brings in a file that the first one's
      manifest stores too, and the first one is indexed again as it was: it was up
      to date, and yet its content rows grow, and no other row but its root's changes. */
  method ReindexingCanAddContent(h: Hash) returns (tx: Tx, first: Tx)
    requires CollisionFree(h)
    ensures first.Valid(h) && first.lib == Two() && UpToDate(first.lib, Storing(), "p")
    ensures tx.Valid(h) && tx.lib == first.lib && tx.nodes == first.nodes && tx.names == first.names
    ensures tx.invs == first.invs && tx.versions == first.versions && tx.roots == WithRoot(first.roots, "p", 1)
    ensures tx.content != first.content
    ensures forall k :: k in first.content ==> k in tx.content && tx.content[k] == first.content[k]
  {
    hide *;
    tx := IndexBoth(h);
    Plain(h);
    TwoIs();
    StoringValid();
    TwoSteps();
    AcceptableNow();
    first := new Tx.Begin(tx);
    AllSame(first, tx);
    first.SameIsValid(tx, h);
    var r := tx.IndexObjectInventory(h, "p", 1, Storing(), PlainTrees());
    OnlyAdds(first.content, tx.content, tx.invs["a"].id);
  }

  lemma AllSame(a: Tx, b: Tx)
    requires a.SameAs(b)
    ensures a.nodes == b.nodes && a.names == b.names && a.roots == b.roots && a.invs == b.invs
    ensures a.versions == b.versions && a.content == b.content && a.lib == b.lib
  {
  }

  lemma OnlyAdds(content: Contents, content': Contents, inv: Id)
    requires OnlyFor(content, content', inv)
    ensures forall k :: k in content ==> k in content' && content'[k] == content[k]
  {
  }

  lemma AcceptableNow()
    ensures Acceptable(Two(), Storing(), "p")
  {
    hide Acceptable, Two, Indexed;
    TwoIs();
  }

  // ----- two directories that cannot both be stored -----

  /** Whatever the tables hold, no rows unfold to both of two directories whose
      listings are the same text because of a newline in a name. */
  lemma CannotStoreBoth(h: Hash, nodes: Nodes, names: Names, i: Id, j: Id, s: Sum)
    requires RowIds(nodes) && Represents(h, nodes, names, i, Dir(TwoFiles(s)))
    ensures !Represents(h, nodes, names, j, Dir(OddFile(s)))
  {
    hide *;
    var t, u := Dir(TwoFiles(s)), Dir(OddFile(s));
    NewlineNamesCollide(h, s);
    if Represents(h, nodes, names, j, u) {
      RowIsKeys(h, nodes, names, i, t);
      RowIsKeys(h, nodes, names, j, u);
      KeyOfDirs(h, t, u);
      RowTellsTree(h, nodes, names, i, t, u);
    }
  }

  lemma RowIsKeys(h: Hash, nodes: Nodes, names: Names, id: Id, t: Tree)
    requires Represents(h, nodes, names, id, t)
    ensures KeyOf(h, t) in nodes && nodes[KeyOf(h, t)] == id
  {
  }

  lemma KeyOfDirs(h: Hash, t: Tree, u: Tree)
    requires t.Dir? && u.Dir? && Digest(h, t) == Digest(h, u)
    ensures KeyOf(h, t) == KeyOf(h, u)
  {
  }
}
