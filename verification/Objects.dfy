/** What the object tables (roots, inventories, versions, content paths) mean,
    given the trees that node rows stand for. */
module Objects {
  import opened Trees
  import opened Paths
  import opened States
  import opened Digests
  import opened IndexTree
  import opened Merkle

  // ----- what is indexed -----

  datatype User = User(name: string, address: string)

  datatype Version = Version(name: string, state: map<string, Sum>, message: string, created: int, user: Option<User>)

  /** `versions` is keyed by version number; `head` is the latest one's. */
  datatype Inventory = Inventory(id: string, spec: string, algorithm: string, digest: string, head: nat,
                                 versions: map<nat, Version>, manifest: map<string, Sum>)

  function DigitsValue(s: string): nat
  {
    if s == "" then 0
    else DigitsValue(s[..|s| - 1]) * 10 + (if '0' <= s[|s| - 1] <= '9' then s[|s| - 1] as int - '0' as int else 0)
  }

  /** The number of a version name such as "v4" or "v004". */
  function NumOf(name: string): nat
  {
    if name != "" && name[0] == 'v' then DigitsValue(name[1..]) else DigitsValue(name)
  }

  /** The digits after the `v` are read as a decimal number. */
  lemma NumberOfDigits(s: string, c: char)
    requires '0' <= c <= '9'
    ensures NumOf("v" + s + [c]) == 10 * NumOf("v" + s) + (c as int - 48) && NumOf("v") == 0
    ensures s == "" || s[0] != 'v' ==> NumOf(s) == NumOf("v" + s)
  {
    var t := s + [c];
    assert "v" + s + [c] == "v" + t && ("v" + t)[1..] == t && ("v" + s)[1..] == s && t[..|s|] == s;
    assert "v"[1..] == "";
  }

  /** What is assumed of an inventory that passes validation: every version is
      named after its number, the head is one of them, no logical path lies below
      another one, and every digest of a state is in the manifest. */
  ghost predicate Validated(inv: Inventory)
  {
    && inv.head in inv.versions
    && forall n :: n in inv.versions ==>
         && NumOf(inv.versions[n].name) == n && inv.versions[n].name != ""
         && PrefixFree(FilesOf(inv.versions[n].state))
         && forall k :: k in inv.versions[n].state ==> inv.versions[n].state[k] in inv.manifest.Values
  }

  // ----- the rows -----

  datatype RootRow = RootRow(id: Id, indexedAt: int)

  datatype InvRow = InvRow(id: Id, rootId: Id, spec: string, algorithm: string, digest: string, head: string)

  datatype VersionKey = VersionKey(inv: Id, num: nat)

  datatype VersionRow = VersionRow(name: string, message: string, created: int,
                                   userName: string, userAddress: string, node: Id)

  datatype ContentKey = ContentKey(inv: Id, node: Id)

  type Roots = map<string, RootRow>
  type Invs = map<string, InvRow>
  type Versions = map<VersionKey, VersionRow>
  type Contents = map<ContentKey, string>

  // ----- what they mean -----

  /** A version as it was first indexed. */
  datatype VersionInfo = VersionInfo(name: string, files: Files, message: string, created: int,
                                     userName: string, userAddress: string)

  datatype Content = Content(path: string, sum: Sum)

  datatype Object = Object(root: string, spec: string, algorithm: string, digest: string, head: string,
                           versions: map<nat, VersionInfo>, manifest: set<Content>)

  type Library = map<string, Object>

  ghost predicate RootsShown(roots: Roots)
  {
    "" !in roots && forall p, q :: p in roots && q in roots && roots[p].id == roots[q].id ==> p == q
  }

  ghost predicate InvsShown(roots: Roots, invs: Invs, lib: Library)
  {
    && invs.Keys == lib.Keys
    && (forall i :: i in lib ==>
          && lib[i].root in roots && roots[lib[i].root].id == invs[i].rootId
          && invs[i] == InvRow(invs[i].id, invs[i].rootId, lib[i].spec, lib[i].algorithm, lib[i].digest, lib[i].head))
    && (forall i, j :: i in invs && j in invs && invs[i].id == invs[j].id ==> i == j)
    && (forall i, j :: i in invs && j in invs && invs[i].rootId == invs[j].rootId ==> i == j)
  }

  /** Row and tree agree on a version. */
  ghost predicate VersionShown(row: VersionRow, v: VersionInfo, num: nat, den: Meanings)
  {
    && row == VersionRow(v.name, v.message, v.created, v.userName, v.userAddress, row.node)
    && NumOf(v.name) == num && PrefixFree(v.files)
    && row.node in den && den[row.node] == StateTree(v.files)
  }

  ghost predicate VersionsShown(invs: Invs, versions: Versions, den: Meanings, lib: Library)
  {
    NoStrayVersion(invs, versions, lib) && VersionsPresent(invs, versions, den, lib)
  }

  ghost predicate NoStrayVersion(invs: Invs, versions: Versions, lib: Library)
  {
    forall k :: k in versions ==> exists i :: OwnsVersion(invs, lib, i, k)
  }

  ghost predicate VersionsPresent(invs: Invs, versions: Versions, den: Meanings, lib: Library)
  {
    forall i, n :: i in invs && i in lib && n in lib[i].versions ==>
        VersionPresent(invs[i].id, n, lib[i].versions[n], versions, den)
  }

  ghost predicate VersionPresent(inv: Id, n: nat, v: VersionInfo, versions: Versions, den: Meanings)
  {
    VersionKey(inv, n) in versions && VersionShown(versions[VersionKey(inv, n)], v, n, den)
  }

  ghost predicate OwnsVersion(invs: Invs, lib: Library, i: string, k: VersionKey)
  {
    i in invs && i in lib && invs[i].id == k.inv && k.num in lib[i].versions
  }

  /** Content rows name manifest entries with the digest of their node. */
  ghost predicate ContentShown(invs: Invs, content: Contents, den: Meanings, lib: Library)
  {
    forall k :: k in content ==>
      && k.node in den && den[k.node].File?
      && exists i :: OwnsContent(invs, lib, i, k.inv, Content(content[k], den[k.node].sum))
  }

  ghost predicate OwnsContent(invs: Invs, lib: Library, i: string, inv: Id, c: Content)
  {
    i in invs && i in lib && invs[i].id == inv && c in lib[i].manifest
  }

  /** Every file of the given versions has a content row. */
  ghost predicate CompleteFor(content: Contents, nodes: Nodes, inv: Id, versions: map<nat, VersionInfo>)
  {
    forall n, f :: n in versions && f in versions[n].files ==> HasContent(content, nodes, inv, versions[n].files[f])
  }

  /** Every file of every version has a content row, except for the objects in `pending`. */
  ghost predicate ContentComplete(invs: Invs, content: Contents, nodes: Nodes, lib: Library, pending: set<string>)
  {
    forall i :: i in invs && i in lib && i !in pending ==> CompleteFor(content, nodes, invs[i].id, lib[i].versions)
  }

  ghost predicate HasContent(content: Contents, nodes: Nodes, inv: Id, sum: Sum)
  {
    NodeKey(sum, false) in nodes && ContentKey(inv, nodes[NodeKey(sum, false)]) in content
  }

  /** The tables show exactly the library; only for the objects in `pending`
      may content rows still be missing. */
  ghost predicate Shown(roots: Roots, invs: Invs, versions: Versions, content: Contents,
                        nodes: Nodes, den: Meanings, lib: Library, pending: set<string>)
  {
    && RootsShown(roots) && InvsShown(roots, invs, lib) && VersionsShown(invs, versions, den, lib)
    && ContentShown(invs, content, den, lib) && ContentComplete(invs, content, nodes, lib, pending)
  }

  // ----- growth of the graph -----

  lemma ShownAsGraphGrows(roots: Roots, invs: Invs, versions: Versions, content: Contents, lib: Library,
                          pending: set<string>,
                          nodes: Nodes, names: Names, den: Meanings, nodes': Nodes, names': Names, den': Meanings)
    requires Shown(roots, invs, versions, content, nodes, den, lib, pending)
    requires GraphGrows(nodes, names, den, nodes', names', den')
    ensures Shown(roots, invs, versions, content, nodes', den', lib, pending)
  {
    hide RootsShown, InvsShown, StateTree, PrefixFree, NumOf, CompleteFor;
    forall i | i in invs && i in lib && i !in pending
      ensures CompleteFor(content, nodes', invs[i].id, lib[i].versions)
    {
      CompleteStays(content, nodes, content, nodes', invs[i].id, lib[i].versions);
    }
  }

  lemma CompleteStays(content: Contents, nodes: Nodes, content': Contents, nodes': Nodes, inv: Id,
                      versions: map<nat, VersionInfo>)
    requires CompleteFor(content, nodes, inv, versions)
    requires forall k :: k in nodes ==> k in nodes' && nodes'[k] == nodes[k]
    requires forall k :: k in content ==> k in content'
    ensures CompleteFor(content', nodes', inv, versions)
  {
    forall n, f | n in versions && f in versions[n].files
      ensures HasContent(content', nodes', inv, versions[n].files[f])
    {
      assert HasContent(content, nodes, inv, versions[n].files[f]);
    }
  }

  // ----- roots -----

  function RootIds(roots: Roots): set<Id>
  {
    set p | p in roots :: roots[p].id
  }

  /** A root path's row: inserted, or its time updated. */
  function WithRoot(roots: Roots, path: string, at: int): Roots
  {
    var id := if path in roots then roots[path].id else NextId(RootIds(roots));
    roots[path := RootRow(id, at)]
  }

  lemma WithRootShown(roots: Roots, path: string, at: int, invs: Invs, lib: Library)
    requires RootsShown(roots) && InvsShown(roots, invs, lib) && path != ""
    ensures RootsShown(WithRoot(roots, path, at)) && InvsShown(WithRoot(roots, path, at), invs, lib)
  {
    assert forall p :: p in roots ==> roots[p].id in RootIds(roots);
  }

  // ----- inventories -----

  function InvIds(invs: Invs): set<Id>
  {
    set i | i in invs :: invs[i].id
  }

  /** Another inventory sits at the root. */
  predicate RootTaken(invs: Invs, id: string, rootId: Id)
  {
    exists j :: j in invs && j != id && invs[j].rootId == rootId
  }

  function WithInv(invs: Invs, inv: Inventory, rootId: Id): Invs
    requires inv.head in inv.versions
  {
    var id := if inv.id in invs then invs[inv.id].id else NextId(InvIds(invs));
    invs[inv.id := InvRow(id, rootId, inv.spec, inv.algorithm, inv.digest, inv.versions[inv.head].name)]
  }

  /** The object once its inventory row is written: the versions and content
      paths indexed earlier stay. */
  ghost function Refreshed(lib: Library, inv: Inventory, path: string): Object
    requires inv.head in inv.versions
  {
    Object(path, inv.spec, inv.algorithm, inv.digest, inv.versions[inv.head].name,
           if inv.id in lib then lib[inv.id].versions else map[],
           if inv.id in lib then lib[inv.id].manifest else {})
  }

  lemma WithInvShown(roots: Roots, invs: Invs, versions: Versions, content: Contents, nodes: Nodes, den: Meanings,
                     lib: Library, pending: set<string>, inv: Inventory, path: string)
    requires Shown(roots, invs, versions, content, nodes, den, lib, pending)
    requires inv.head in inv.versions && path in roots && !RootTaken(invs, inv.id, roots[path].id)
    ensures Shown(roots, WithInv(invs, inv, roots[path].id), versions, content, nodes, den,
                  lib[inv.id := Refreshed(lib, inv, path)], pending)
  {
    hide InvsShown, VersionsShown, ContentShown, ContentComplete, RootsShown;
    WithInvRows(roots, invs, lib, inv, path);
    SameIds(roots, invs, lib);
    WithInvKeeps(invs, lib, inv, path, roots[path].id);
    KeptShown(invs, versions, content, nodes, den, lib, pending,
              WithInv(invs, inv, roots[path].id), lib[inv.id := Refreshed(lib, inv, path)]);
  }

  lemma WithInvRows(roots: Roots, invs: Invs, lib: Library, inv: Inventory, path: string)
    requires InvsShown(roots, invs, lib)
    requires inv.head in inv.versions && path in roots && !RootTaken(invs, inv.id, roots[path].id)
    ensures InvsShown(roots, WithInv(invs, inv, roots[path].id), lib[inv.id := Refreshed(lib, inv, path)])
  {
    hide InvIds;
    NewInvId(invs);
  }

  lemma SameIds(roots: Roots, invs: Invs, lib: Library)
    requires InvsShown(roots, invs, lib)
    ensures invs.Keys == lib.Keys
  {
  }

  lemma NewInvId(invs: Invs)
    ensures forall i :: i in invs ==> invs[i].id != NextId(InvIds(invs))
  {
    assert forall i :: i in invs ==> invs[i].id in InvIds(invs);
  }

  /** The objects of `lib` keep their row ids, versions and content; objects
      that are new have none. */
  ghost predicate Kept(invs: Invs, lib: Library, invs': Invs, lib': Library)
  {
    && invs.Keys == lib.Keys && invs'.Keys == lib'.Keys
    && (forall i :: i in invs ==> i in invs')
    && (forall i :: i in invs ==> invs'[i].id == invs[i].id)
    && (forall i :: i in invs ==> lib'[i].versions == lib[i].versions)
    && (forall i :: i in invs ==> lib'[i].manifest == lib[i].manifest)
    && (forall i :: i in invs' && i !in invs ==> lib'[i].versions == map[])
  }

  lemma WithInvKeeps(invs: Invs, lib: Library, inv: Inventory, path: string, rootId: Id)
    requires invs.Keys == lib.Keys && inv.head in inv.versions
    ensures Kept(invs, lib, WithInv(invs, inv, rootId), lib[inv.id := Refreshed(lib, inv, path)])
  {
  }

  lemma KeptShown(invs: Invs, versions: Versions, content: Contents, nodes: Nodes, den: Meanings,
                  lib: Library, pending: set<string>, invs': Invs, lib': Library)
    requires Kept(invs, lib, invs', lib')
    requires VersionsShown(invs, versions, den, lib) && ContentShown(invs, content, den, lib)
    requires ContentComplete(invs, content, nodes, lib, pending)
    ensures VersionsShown(invs', versions, den, lib') && ContentShown(invs', content, den, lib')
    ensures ContentComplete(invs', content, nodes, lib', pending)
  {
    hide *;
    KeptVersions(invs, versions, den, lib, invs', lib');
    KeptContent(invs, content, den, lib, invs', lib');
    KeptComplete(invs, content, nodes, lib, pending, invs', lib');
  }

  lemma KeptVersions(invs: Invs, versions: Versions, den: Meanings, lib: Library, invs': Invs, lib': Library)
    requires Kept(invs, lib, invs', lib') && VersionsShown(invs, versions, den, lib)
    ensures VersionsShown(invs', versions, den, lib')
  {
    hide VersionShown;
    forall k | k in versions ensures exists i :: OwnsVersion(invs', lib', i, k) {
      var i :| OwnsVersion(invs, lib, i, k);
      assert OwnsVersion(invs', lib', i, k);
    }
    forall i, n | i in invs' && i in lib' && n in lib'[i].versions
      ensures VersionPresent(invs'[i].id, n, lib'[i].versions[n], versions, den)
    {
      assert i in invs && n in lib[i].versions;
    }
  }

  lemma KeptContent(invs: Invs, content: Contents, den: Meanings, lib: Library, invs': Invs, lib': Library)
    requires Kept(invs, lib, invs', lib') && ContentShown(invs, content, den, lib)
    ensures ContentShown(invs', content, den, lib')
  {
    forall k | k in content
      ensures k.node in den && den[k.node].File?
      ensures exists i :: OwnsContent(invs', lib', i, k.inv, Content(content[k], den[k.node].sum))
    {
      var i :| OwnsContent(invs, lib, i, k.inv, Content(content[k], den[k.node].sum));
      assert OwnsContent(invs', lib', i, k.inv, Content(content[k], den[k.node].sum));
    }
  }

  lemma KeptComplete(invs: Invs, content: Contents, nodes: Nodes, lib: Library, pending: set<string>, invs': Invs,
                     lib': Library)
    requires Kept(invs, lib, invs', lib') && ContentComplete(invs, content, nodes, lib, pending)
    ensures ContentComplete(invs', content, nodes, lib', pending)
  {
    hide CompleteFor;
    forall i | i in invs' && i in lib' && i !in pending
      ensures CompleteFor(content, nodes, invs'[i].id, lib'[i].versions)
    {
      if i !in invs {
        NothingToComplete(content, nodes, invs'[i].id);
      }
    }
  }

  lemma NothingToComplete(content: Contents, nodes: Nodes, inv: Id)
    ensures CompleteFor(content, nodes, inv, map[])
  {
  }

  // ----- versions -----

  /** Seconds since the epoch; times are in nanoseconds. */
  function Unix(t: int): int
  {
    t / 1_000_000_000
  }

  /** The time lies in the second that begins `k` seconds after the epoch. */
  ghost predicate InSecond(t: int, k: int)
  {
    k * 1_000_000_000 <= t < (k + 1) * 1_000_000_000
  }

  /** Equal in seconds are the times that lie in the same second, before the epoch too. */
  lemma SameSecond(s: int, t: int)
    ensures Unix(t) * 1_000_000_000 <= t < (Unix(t) + 1) * 1_000_000_000
    ensures Unix(s) == Unix(t) <==> exists k :: InSecond(s, k) && InSecond(t, k)
  {
    assert InSecond(s, Unix(s)) && InSecond(t, Unix(t));
  }

  ghost function InfoOf(v: Version): VersionInfo
  {
    VersionInfo(v.name, FilesOf(v.state), v.message, v.created,
                if v.user.Some? then v.user.value.name else "", if v.user.Some? then v.user.value.address else "")
  }

  function RowOf(v: Version, node: Id): VersionRow
  {
    VersionRow(v.name, v.message, v.created,
               if v.user.Some? then v.user.value.name else "", if v.user.Some? then v.user.value.address else "", node)
  }

  /** The version given again: same state, message, time to the second, and
      user unless none is given. */
  ghost predicate Agrees(before: VersionInfo, v: Version)
  {
    && before.files == FilesOf(v.state) && before.message == v.message && Unix(before.created) == Unix(v.created)
    && (v.user.Some? ==> before.userAddress == v.user.value.address && before.userName == v.user.value.name)
  }

  lemma AgreesMeaning(before: VersionInfo, v: Version)
    ensures Agrees(before, v) <==>
            && before.files == FilesOf(v.state) && before.message == v.message
            && (exists k :: InSecond(before.created, k) && InSecond(v.created, k))
            && (v.user.Some? ==> User(before.userName, before.userAddress) == v.user.value)
  {
    hide FilesOf, InSecond, Unix;
    SameSecond(before.created, v.created);
  }

  ghost function WithVersion(lib: Library, i: string, n: nat, info: VersionInfo): Library
    requires i in lib
  {
    lib[i := lib[i].(versions := lib[i].versions[n := info])]
  }

  lemma WithVersionShown(roots: Roots, invs: Invs, versions: Versions, content: Contents, nodes: Nodes, den: Meanings,
                         lib: Library, i: string, n: nat, row: VersionRow, info: VersionInfo)
    requires Shown(roots, invs, versions, content, nodes, den, lib, {i})
    requires i in lib && n !in lib[i].versions && VersionShown(row, info, n, den)
    ensures i in invs && VersionKey(invs[i].id, n) !in versions
    ensures Shown(roots, invs, versions[VersionKey(invs[i].id, n) := row], content, nodes, den,
                  WithVersion(lib, i, n, info), {i})
  {
    hide RootsShown, InvsShown, VersionsShown, ContentShown, ContentComplete, VersionShown;
    var lib' := WithVersion(lib, i, n, info);
    SameIds(roots, invs, lib);
    OneLibraryEntry(roots, invs, lib, i, lib'[i]);
    VersionAdded(roots, invs, versions, den, lib, i, n, row, info);
    OtherContent(invs, content, nodes, den, lib, i, lib'[i]);
  }

  /** An object may change its versions and content; its inventory row is still shown. */
  lemma OneLibraryEntry(roots: Roots, invs: Invs, lib: Library, i: string, o: Object)
    requires InvsShown(roots, invs, lib) && i in lib
    requires o == lib[i].(versions := o.versions, manifest := o.manifest)
    ensures InvsShown(roots, invs, lib[i := o])
  {
  }

  lemma VersionAdded(roots: Roots, invs: Invs, versions: Versions, den: Meanings,
                     lib: Library, i: string, n: nat, row: VersionRow, info: VersionInfo)
    requires InvsShown(roots, invs, lib) && VersionsShown(invs, versions, den, lib)
    requires i in lib && n !in lib[i].versions && VersionShown(row, info, n, den)
    ensures i in invs && VersionKey(invs[i].id, n) !in versions
    ensures VersionsShown(invs, versions[VersionKey(invs[i].id, n) := row], den, WithVersion(lib, i, n, info))
  {
    hide VersionShown, NoStrayVersion, VersionsPresent;
    assert i in invs;
    NoStrayAdded(roots, invs, versions, lib, i, n, row, info);
    var key, lib' := VersionKey(invs[i].id, n), WithVersion(lib, i, n, info);
    PresentAdded(roots, invs, versions, den, lib, i, n, row, info);
  }

  lemma NoStrayAdded(roots: Roots, invs: Invs, versions: Versions,
                     lib: Library, i: string, n: nat, row: VersionRow, info: VersionInfo)
    requires InvsShown(roots, invs, lib) && NoStrayVersion(invs, versions, lib)
    requires i in invs && i in lib && n !in lib[i].versions
    ensures VersionKey(invs[i].id, n) !in versions
    ensures NoStrayVersion(invs, versions[VersionKey(invs[i].id, n) := row], WithVersion(lib, i, n, info))
  {
    var key, lib' := VersionKey(invs[i].id, n), WithVersion(lib, i, n, info);
    assert forall j :: OwnsVersion(invs, lib, j, key) ==> j == i;
    var versions' := versions[key := row];
    forall k | k in versions' ensures exists j :: OwnsVersion(invs, lib', j, k) {
      if k == key {
        assert OwnsVersion(invs, lib', i, k);
      } else {
        var j :| OwnsVersion(invs, lib, j, k);
        assert OwnsVersion(invs, lib', j, k);
      }
    }
  }

  lemma PresentAdded(roots: Roots, invs: Invs, versions: Versions, den: Meanings,
                     lib: Library, i: string, n: nat, row: VersionRow, info: VersionInfo)
    requires InvsShown(roots, invs, lib) && VersionsPresent(invs, versions, den, lib)
    requires i in invs && i in lib && VersionKey(invs[i].id, n) !in versions && VersionShown(row, info, n, den)
    ensures VersionsPresent(invs, versions[VersionKey(invs[i].id, n) := row], den, WithVersion(lib, i, n, info))
  {
    hide VersionShown;
    var key, lib' := VersionKey(invs[i].id, n), WithVersion(lib, i, n, info);
    forall j, m | j in invs && j in lib' && m in lib'[j].versions
      ensures VersionPresent(invs[j].id, m, lib'[j].versions[m], versions[key := row], den)
    {
      if j != i || m != n {
        assert m in lib[j].versions && VersionPresent(invs[j].id, m, lib[j].versions[m], versions, den);
      }
    }
  }

  /** What an object's new versions do to content rows: nothing, for the others. */
  lemma OtherContent(invs: Invs, content: Contents, nodes: Nodes, den: Meanings, lib: Library, i: string, o: Object)
    requires ContentShown(invs, content, den, lib) && ContentComplete(invs, content, nodes, lib, {i})
    requires i in lib && lib[i].manifest <= o.manifest
    ensures ContentShown(invs, content, den, lib[i := o]) && ContentComplete(invs, content, nodes, lib[i := o], {i})
  {
    hide CompleteFor;
    var lib' := lib[i := o];
    forall k | k in content
      ensures exists j :: OwnsContent(invs, lib', j, k.inv, Content(content[k], den[k.node].sum))
    {
      var j :| OwnsContent(invs, lib, j, k.inv, Content(content[k], den[k.node].sum));
      assert OwnsContent(invs, lib', j, k.inv, Content(content[k], den[k.node].sum));
    }
  }

  // ----- content paths -----

  ghost function WithContent(lib: Library, i: string, c: Content): Library
    requires i in lib
  {
    lib[i := lib[i].(manifest := lib[i].manifest + {c})]
  }

  /** `INSERT OR IGNORE` of a manifest entry: nothing happens when no file row
      has the digest, or when the object has a path for that row already. */
  function ContentAfter(content: Contents, nodes: Nodes, inv: Id, path: string, sum: Sum): Contents
  {
    var key := NodeKey(sum, false);
    if key in nodes && ContentKey(inv, nodes[key]) !in content then content[ContentKey(inv, nodes[key]) := path]
    else content
  }

  lemma WithContentShown(h: Hash, roots: Roots, invs: Invs, versions: Versions, content: Contents, nodes: Nodes,
                         den: Meanings,
                         lib: Library, i: string, path: string, sum: Sum)
    requires Shown(roots, invs, versions, content, nodes, den, lib, {i}) && i in lib && Keyed(h, nodes, den)
    ensures i in invs
    ensures Shown(roots, invs, versions, ContentAfter(content, nodes, invs[i].id, path, sum), nodes, den,
                  WithContent(lib, i, Content(path, sum)), {i})
  {
    hide RootsShown, InvsShown, VersionsShown, ContentShown, ContentComplete, Keyed, ContentAfter;
    var lib' := WithContent(lib, i, Content(path, sum));
    SameIds(roots, invs, lib);
    OneLibraryEntry(roots, invs, lib, i, lib'[i]);
    OtherVersions(invs, versions, den, lib, i, lib'[i]);
    OtherContent(invs, content, nodes, den, lib, i, lib'[i]);
    ContentAdded(h, invs, content, nodes, den, lib', i, path, sum);
  }

  lemma OtherVersions(invs: Invs, versions: Versions, den: Meanings, lib: Library, i: string, o: Object)
    requires VersionsShown(invs, versions, den, lib) && i in lib && lib[i].versions == o.versions
    ensures VersionsShown(invs, versions, den, lib[i := o])
  {
    hide VersionPresent;
    var lib' := lib[i := o];
    forall k | k in versions ensures exists j :: OwnsVersion(invs, lib', j, k) {
      var j :| OwnsVersion(invs, lib, j, k);
      assert OwnsVersion(invs, lib', j, k);
    }
    forall j, m | j in invs && j in lib' && m in lib'[j].versions
      ensures VersionPresent(invs[j].id, m, lib'[j].versions[m], versions, den)
    {
      assert m in lib[j].versions;
    }
  }

  lemma ContentAdded(h: Hash, invs: Invs, content: Contents, nodes: Nodes, den: Meanings,
                     lib: Library, i: string, path: string, sum: Sum)
    requires ContentShown(invs, content, den, lib) && ContentComplete(invs, content, nodes, lib, {i})
    requires Keyed(h, nodes, den)
    requires i in invs && i in lib && Content(path, sum) in lib[i].manifest
    ensures ContentShown(invs, ContentAfter(content, nodes, invs[i].id, path, sum), den, lib)
    ensures ContentComplete(invs, ContentAfter(content, nodes, invs[i].id, path, sum), nodes, lib, {i})
  {
    hide CompleteFor;
    var content' := ContentAfter(content, nodes, invs[i].id, path, sum);
    forall k | k in content'
      ensures k.node in den && den[k.node].File?
      ensures exists j :: OwnsContent(invs, lib, j, k.inv, Content(content'[k], den[k.node].sum))
    {
      if k !in content {
        assert KeyOf(h, den[k.node]) == NodeKey(sum, false);
        assert OwnsContent(invs, lib, i, k.inv, Content(content'[k], den[k.node].sum));
      }
    }
    forall j | j in invs && j in lib && j !in {i} ensures CompleteFor(content', nodes, invs[j].id, lib[j].versions) {
      CompleteStays(content, nodes, content', nodes, invs[j].id, lib[j].versions);
    }
  }

  // ----- removal -----

  /** The rows left when roots last indexed before `before` are deleted, with
      everything that refers to them. */
  function RootsSince(roots: Roots, before: int): Roots
  {
    map p | p in roots && roots[p].indexedAt >= before :: roots[p]
  }

  function InvsOf(invs: Invs, roots: Roots): Invs
  {
    map i | i in invs && invs[i].rootId in RootIds(roots) :: invs[i]
  }

  function VersionsOf(versions: Versions, invs: Invs): Versions
  {
    map k | k in versions && k.inv in InvIds(invs) :: versions[k]
  }

  function ContentOf(content: Contents, invs: Invs): Contents
  {
    map k | k in content && k.inv in InvIds(invs) :: content[k]
  }

  /** The objects whose root is still there. */
  ghost function LibraryOf(lib: Library, roots: Roots): Library
  {
    map i | i in lib && lib[i].root in roots :: lib[i]
  }

  lemma RemovalShown(roots: Roots, invs: Invs, versions: Versions, content: Contents, nodes: Nodes, den: Meanings,
                     lib: Library, before: int)
    requires Shown(roots, invs, versions, content, nodes, den, lib, {})
    ensures var roots' := RootsSince(roots, before);
            var invs' := InvsOf(invs, roots');
            Shown(roots', invs', VersionsOf(versions, invs'), ContentOf(content, invs'), nodes, den,
              LibraryOf(lib, roots'), {})
  {
    hide VersionsShown, ContentShown, ContentComplete;
    var roots' := RootsSince(roots, before);
    var invs', lib' := InvsOf(invs, roots'), LibraryOf(lib, roots');
    RowsRemoved(roots, roots', invs, lib);
    hide InvsOf, LibraryOf, RootsSince;
    VersionsRemoved(invs, versions, den, lib, invs', lib');
    ContentRemoved(invs, content, nodes, den, lib, invs', lib');
  }

  /** `lib'` and its rows are those of `lib` for some of its objects. */
  ghost predicate PartOf(invs: Invs, lib: Library, invs': Invs, lib': Library)
  {
    && invs.Keys == lib.Keys && invs'.Keys == lib'.Keys
    && (forall i :: i in invs' ==> i in invs && invs'[i] == invs[i] && lib'[i] == lib[i])
    && (forall i, j :: i in invs && j in invs && invs[i].id == invs[j].id ==> i == j)
  }

  lemma SameObjectsLeft(roots: Roots, roots': Roots, invs: Invs, lib: Library)
    requires RootsShown(roots) && InvsShown(roots, invs, lib)
    requires forall p :: p in roots' ==> p in roots && roots'[p] == roots[p]
    ensures forall i :: i in invs ==> (invs[i].rootId in RootIds(roots') <==> lib[i].root in roots')
  {
    forall i | i in invs ensures invs[i].rootId in RootIds(roots') <==> lib[i].root in roots' {
      if lib[i].root in roots' {
        assert roots'[lib[i].root].id == invs[i].rootId;
      }
      if invs[i].rootId in RootIds(roots') {
        var p :| p in roots' && roots'[p].id == invs[i].rootId;
        assert p == lib[i].root;
      }
    }
  }

  lemma RowsRemoved(roots: Roots, roots': Roots, invs: Invs, lib: Library)
    requires RootsShown(roots) && InvsShown(roots, invs, lib)
    requires forall p :: p in roots' ==> p in roots && roots'[p] == roots[p]
    ensures RootsShown(roots') && InvsShown(roots', InvsOf(invs, roots'), LibraryOf(lib, roots'))
    ensures PartOf(invs, lib, InvsOf(invs, roots'), LibraryOf(lib, roots'))
  {
    hide RootIds, InvsShown, PartOf;
    SameObjectsLeft(roots, roots', invs, lib);
    SameIds(roots, invs, lib);
    assert InvsOf(invs, roots').Keys == LibraryOf(lib, roots').Keys;
    LeftAreShown(roots, roots', invs, lib, InvsOf(invs, roots'), LibraryOf(lib, roots'));
  }

  lemma LeftAreShown(roots: Roots, roots': Roots, invs: Invs, lib: Library, invs': Invs, lib': Library)
    requires InvsShown(roots, invs, lib) && invs'.Keys == lib'.Keys
    requires forall p :: p in roots' ==> p in roots && roots'[p] == roots[p]
    requires forall i :: i in invs' ==> i in invs && invs'[i] == invs[i]
    requires forall i :: i in lib' ==> i in lib && lib'[i] == lib[i] && lib[i].root in roots'
    ensures InvsShown(roots', invs', lib') && PartOf(invs, lib, invs', lib')
  {
  }

  lemma VersionsRemoved(invs: Invs, versions: Versions, den: Meanings, lib: Library, invs': Invs, lib': Library)
    requires PartOf(invs, lib, invs', lib') && VersionsShown(invs, versions, den, lib)
    ensures VersionsShown(invs', VersionsOf(versions, invs'), den, lib')
  {
    hide NoStrayVersion, VersionsPresent, PartOf;
    NoStrayRemoved(invs, versions, lib, invs', lib');
    PresentRemoved(invs, versions, den, lib, invs', lib');
  }

  lemma NoStrayRemoved(invs: Invs, versions: Versions, lib: Library, invs': Invs, lib': Library)
    requires PartOf(invs, lib, invs', lib') && NoStrayVersion(invs, versions, lib)
    ensures NoStrayVersion(invs', VersionsOf(versions, invs'), lib')
  {
    forall k | k in VersionsOf(versions, invs') ensures exists i :: OwnsVersion(invs', lib', i, k) {
      var i :| OwnsVersion(invs, lib, i, k);
      var j :| j in invs' && invs'[j].id == k.inv;
      assert i == j && OwnsVersion(invs', lib', i, k);
    }
  }

  lemma PresentRemoved(invs: Invs, versions: Versions, den: Meanings, lib: Library, invs': Invs, lib': Library)
    requires PartOf(invs, lib, invs', lib') && VersionsPresent(invs, versions, den, lib)
    ensures VersionsPresent(invs', VersionsOf(versions, invs'), den, lib')
  {
    hide VersionShown;
    forall i, n | i in invs' && i in lib' && n in lib'[i].versions
      ensures VersionPresent(invs'[i].id, n, lib'[i].versions[n], VersionsOf(versions, invs'), den)
    {
      assert VersionPresent(invs[i].id, n, lib[i].versions[n], versions, den);
      assert invs'[i].id in InvIds(invs');
    }
  }

  lemma ContentRemoved(invs: Invs, content: Contents, nodes: Nodes, den: Meanings, lib: Library, invs': Invs,
                       lib': Library)
    requires PartOf(invs, lib, invs', lib')
    requires ContentShown(invs, content, den, lib) && ContentComplete(invs, content, nodes, lib, {})
    ensures ContentShown(invs', ContentOf(content, invs'), den, lib')
    ensures ContentComplete(invs', ContentOf(content, invs'), nodes, lib', {})
  {
    var content' := ContentOf(content, invs');
    forall k | k in content'
      ensures exists i :: OwnsContent(invs', lib', i, k.inv, Content(content'[k], den[k.node].sum))
    {
      var i :| OwnsContent(invs, lib, i, k.inv, Content(content[k], den[k.node].sum));
      var j :| j in invs' && invs'[j].id == k.inv;
      assert i == j && OwnsContent(invs', lib', i, k.inv, Content(content'[k], den[k.node].sum));
    }
    forall i | i in invs' && i in lib' ensures CompleteFor(content', nodes, invs'[i].id, lib'[i].versions) {
      forall n, f | n in lib'[i].versions && f in lib'[i].versions[n].files
        ensures HasContent(content', nodes, invs'[i].id, lib'[i].versions[n].files[f])
      {
        assert HasContent(content, nodes, invs[i].id, lib[i].versions[n].files[f]);
        assert invs'[i].id in InvIds(invs');
      }
    }
  }

  // ----- indexing one inventory -----

  /** What may be indexed: nothing else sits at the root, all logical paths are
      valid, and versions indexed before are the same as then. */
  ghost predicate Acceptable(lib: Library, inv: Inventory, path: string)
  {
    && path != ""
    && (forall j :: j in lib && j != inv.id ==> lib[j].root != path)
    && (forall n :: n in inv.versions ==> VersionAcceptable(lib, inv.id, n, inv.versions[n]))
  }

  ghost predicate VersionAcceptable(lib: Library, id: string, n: nat, v: Version)
  {
    AllValid(v.state) && (id in lib && n in lib[id].versions ==> Agrees(lib[id].versions[n], v))
  }

  /** The version is not as it was indexed. */
  ghost predicate VersionDiffers(lib: Library, id: string, n: nat, v: Version)
  {
    id in lib && n in lib[id].versions && !Agrees(lib[id].versions[n], v)
  }

  /** Versions once those among `done` are indexed: the first indexing of a number stands. */
  ghost function Merged(before: map<nat, VersionInfo>, inv: Inventory, done: set<nat>): (r: map<nat, VersionInfo>)
    ensures forall n :: n in r <==> n in before || (n in inv.versions && n in done)
    ensures forall n :: n in r ==> r[n] == if n in before then before[n] else InfoOf(inv.versions[n])
  {
    map n | n in before.Keys + (inv.versions.Keys * done) :: if n in before then before[n] else InfoOf(inv.versions[n])
  }

  /** Manifest entries known once those among `done` are inserted. */
  ghost function Known(before: set<Content>, inv: Inventory, done: set<string>): set<Content>
  {
    before + set p | p in inv.manifest && p in done :: Content(p, inv.manifest[p])
  }

  /** The object after indexing the versions and manifest paths among those given. */
  ghost function Progress(lib: Library, inv: Inventory, path: string, vs: set<nat>, ps: set<string>): Object
    requires inv.head in inv.versions
  {
    var o := Refreshed(lib, inv, path);
    o.(versions := Merged(o.versions, inv, vs), manifest := Known(o.manifest, inv, ps))
  }

  /** The object after the whole inventory is indexed. */
  ghost function Indexed(lib: Library, inv: Inventory, path: string): Object
    requires inv.head in inv.versions
  {
    Progress(lib, inv, path, inv.versions.Keys, inv.manifest.Keys)
  }

  /** The library at that point. */
  ghost function LibraryAfter(lib: Library, inv: Inventory, path: string, vs: set<nat>, ps: set<string>): Library
    requires inv.head in inv.versions
  {
    lib[inv.id := Progress(lib, inv, path, vs, ps)]
  }

  lemma ProgressStarts(lib: Library, inv: Inventory, path: string)
    requires inv.head in inv.versions
    ensures Progress(lib, inv, path, {}, {}) == Refreshed(lib, inv, path)
  {
    var o := Refreshed(lib, inv, path);
    assert Merged(o.versions, inv, {}) == o.versions;
    assert Known(o.manifest, inv, {}) == o.manifest;
  }

  lemma ProgressVersion(lib: Library, inv: Inventory, path: string, vs: set<nat>, n: nat)
    requires inv.head in inv.versions && n in inv.versions
    ensures var o, o' := Progress(lib, inv, path, vs, {}), Progress(lib, inv, path, vs + {n}, {});
            o' == if n in o.versions then o else o.(versions := o.versions[n := InfoOf(inv.versions[n])])
  {
    hide InfoOf, Known;
    MergedStep(Refreshed(lib, inv, path).versions, inv, vs, n);
  }

  lemma MergedStep(known: map<nat, VersionInfo>, inv: Inventory, vs: set<nat>, n: nat)
    requires n in inv.versions
    ensures var m := Merged(known, inv, vs);
            Merged(known, inv, vs + {n}) == if n in m then m else m[n := InfoOf(inv.versions[n])]
  {
    hide InfoOf;
  }

  /** One more version: what its indexing meets, and where it leads. */
  lemma NextVersion(lib: Library, inv: Inventory, path: string, vs: set<nat>, n: nat)
    requires inv.head in inv.versions && n in inv.versions && n !in vs
    ensures var now, next := LibraryAfter(lib, inv, path, vs, {}), LibraryAfter(lib, inv, path, vs + {n}, {});
            && inv.id in now
            && (VersionAcceptable(now, inv.id, n, inv.versions[n]) <==>
                VersionAcceptable(lib, inv.id, n, inv.versions[n]))
            && next == (if n in now[inv.id].versions then now else WithVersion(now, inv.id, n, InfoOf(inv.versions[n])))
            && (n in now[inv.id].versions <==> inv.id in lib && n in lib[inv.id].versions)
  {
    hide InfoOf, Agrees, AllValid, Known;
    ProgressVersion(lib, inv, path, vs, n);
  }

  /** One more content path. */
  lemma NextContent(lib: Library, inv: Inventory, path: string, ps: set<string>, p: string)
    requires inv.head in inv.versions && p in inv.manifest
    ensures var now := LibraryAfter(lib, inv, path, inv.versions.Keys, ps);
            var next := LibraryAfter(lib, inv, path, inv.versions.Keys, ps + {p});
            inv.id in now && next == WithContent(now, inv.id, Content(p, inv.manifest[p]))
  {
    hide InfoOf, Known, Merged;
    ProgressContent(lib, inv, path, ps, p);
  }

  lemma ProgressContent(lib: Library, inv: Inventory, path: string, ps: set<string>, p: string)
    requires inv.head in inv.versions && p in inv.manifest
    ensures var vs := inv.versions.Keys;
            var o, o' := Progress(lib, inv, path, vs, ps), Progress(lib, inv, path, vs, ps + {p});
            o' == o.(manifest := o.manifest + {Content(p, inv.manifest[p])})
  {
    var o, o' := Progress(lib, inv, path, inv.versions.Keys, ps), Progress(lib, inv, path, inv.versions.Keys, ps + {p});
    assert o'.manifest == o.manifest + {Content(p, inv.manifest[p])};
  }

  /** Inventory rows and the library agree on who sits at a root. */
  lemma RootTakenMeaning(roots: Roots, invs: Invs, lib: Library, id: string, path: string)
    requires RootsShown(roots) && InvsShown(roots, invs, lib) && path in roots
    ensures RootTaken(invs, id, roots[path].id) <==> exists j :: j in lib && j != id && lib[j].root == path
  {
    forall j | j in lib ensures invs[j].rootId == roots[path].id <==> lib[j].root == path {
      assert roots[lib[j].root].id == invs[j].rootId;
    }
  }

  /** Two version rows lead to the same node exactly when the states are the same. */
  lemma SameNodeSameState(h: Hash, nodes: Nodes, den: Meanings, a: Id, b: Id, f: Files, g: Files)
    requires Keyed(h, nodes, den) && a in den && b in den && PrefixFree(f) && PrefixFree(g)
    requires den[a] == StateTree(f) && den[b] == StateTree(g)
    ensures a == b <==> f == g
  {
    if a == b {
      StateTreeIsInjective(f, g);
    }
    if f == g {
      assert nodes[KeyOf(h, den[a])] == a && nodes[KeyOf(h, den[b])] == b;
    }
  }

  lemma VersionRowThere(roots: Roots, invs: Invs, versions: Versions, den: Meanings, lib: Library, i: string, n: nat)
    requires InvsShown(roots, invs, lib) && VersionsShown(invs, versions, den, lib) && i in invs && i in lib
    ensures VersionKey(invs[i].id, n) in versions <==> n in lib[i].versions
    ensures n in lib[i].versions ==> VersionShown(versions[VersionKey(invs[i].id, n)], lib[i].versions[n], n, den)
  {
    hide VersionShown;
    var key := VersionKey(invs[i].id, n);
    assert forall j :: OwnsVersion(invs, lib, j, key) ==> j == i;
    if n in lib[i].versions {
      assert VersionPresent(invs[i].id, n, lib[i].versions[n], versions, den);
    }
  }

  // ----- indexing the same inventory again -----

  /** Every content path of the inventory holds a file of some version. */
  ghost predicate ManifestUsed(inv: Inventory)
  {
    forall p :: p in inv.manifest ==> exists n, k :: StateHas(inv, n, k, inv.manifest[p])
  }

  ghost predicate StateHas(inv: Inventory, n: nat, k: string, sum: Sum)
  {
    n in inv.versions && k in inv.versions[n].state && inv.versions[n].state[k] == sum
  }

  /** The object is indexed exactly as this inventory describes it. */
  ghost predicate UpToDate(lib: Library, inv: Inventory, path: string)
  {
    inv.head in inv.versions && inv.id in lib && lib[inv.id] == Indexed(lib, inv, path) && Acceptable(lib, inv, path)
  }

  /** What indexing an inventory establishes. */
  lemma IndexedIsUpToDate(lib: Library, inv: Inventory, path: string)
    requires inv.head in inv.versions && Acceptable(lib, inv, path)
    ensures UpToDate(lib[inv.id := Indexed(lib, inv, path)], inv, path)
  {
    hide FilesOf, AllValid, Unix;
    var lib' := lib[inv.id := Indexed(lib, inv, path)];
    IndexedTwice(lib, inv, path);
    forall n | n in inv.versions ensures VersionAcceptable(lib', inv.id, n, inv.versions[n]) {
      assert VersionAcceptable(lib, inv.id, n, inv.versions[n]);
    }
  }

  lemma IndexedTwice(lib: Library, inv: Inventory, path: string)
    requires inv.head in inv.versions
    ensures Indexed(lib[inv.id := Indexed(lib, inv, path)], inv, path) == Indexed(lib, inv, path)
  {
    hide InfoOf;
    var o := Indexed(lib, inv, path);
    assert Merged(o.versions, inv, inv.versions.Keys) == o.versions;
    assert Known(o.manifest, inv, inv.manifest.Keys) == o.manifest;
  }

  /** Whatever happens to other objects leaves an object up to date, as long
      as none of them takes its root. */
  lemma OthersKeepUpToDate(lib: Library, inv: Inventory, path: string, lib': Library)
    requires UpToDate(lib, inv, path) && inv.id in lib' && lib'[inv.id] == lib[inv.id]
    requires forall j :: j in lib' && j != inv.id ==> lib'[j].root != path
    ensures UpToDate(lib', inv, path)
  {
    hide InfoOf, FilesOf, AllValid, Unix, Merged, Known, Agrees;
    forall n | n in inv.versions ensures VersionAcceptable(lib', inv.id, n, inv.versions[n]) {
      assert VersionAcceptable(lib, inv.id, n, inv.versions[n]);
    }
  }

  /** Versions are append-only. Over an object indexed from `before`, a later
      inventory is accepted exactly when the versions it shares with `before` are
      the same: their states and messages, the second they were made in, and their
      users, unless the later one leaves the user out. It then leaves every version
      indexed earlier as it was. */
  lemma VersionsAreAppendOnly(lib: Library, before: Inventory, inv: Inventory, path: string)
    requires inv.head in inv.versions && inv.id in lib && path != "" && lib[inv.id].root == path
    requires forall j :: j in lib && j != inv.id ==> lib[j].root != path
    requires lib[inv.id].versions.Keys == before.versions.Keys
    requires forall n :: n in before.versions ==> lib[inv.id].versions[n] == InfoOf(before.versions[n])
    requires forall n :: n in inv.versions ==> AllValid(inv.versions[n].state)
    ensures Acceptable(lib, inv, path) <==>
            forall n :: n in before.versions && n in inv.versions ==>
              var v, w := before.versions[n], inv.versions[n];
              && v.state == w.state && v.message == w.message
              && (exists k :: InSecond(v.created, k) && InSecond(w.created, k))
              && (w.user.Some? ==> w.user.value == if v.user.Some? then v.user.value else User("", ""))
    ensures forall n :: n in before.versions ==>
              n in Indexed(lib, inv, path).versions && Indexed(lib, inv, path).versions[n] == InfoOf(before.versions[n])
  {
    hide AllValid, FilesOf, Agrees, InSecond;
    forall n | n in before.versions && n in inv.versions
      ensures var v, w := before.versions[n], inv.versions[n];
              Agrees(lib[inv.id].versions[n], w) <==>
              && v.state == w.state && v.message == w.message
              && (exists k :: InSecond(v.created, k) && InSecond(w.created, k))
              && (w.user.Some? ==> w.user.value == if v.user.Some? then v.user.value else User("", ""))
    {
      AgreesMeaning(lib[inv.id].versions[n], inv.versions[n]);
      SameFilesSameState(before.versions[n].state, inv.versions[n].state);
    }
    assert Acceptable(lib, inv, path) <==>
        forall n :: n in inv.versions ==> VersionAcceptable(lib, inv.id, n, inv.versions[n]);
  }

  lemma SameFilesSameState(a: map<string, Sum>, b: map<string, Sum>)
    ensures FilesOf(a) == FilesOf(b) <==> a == b
  {
    if FilesOf(a) == FilesOf(b) {
      forall k ensures k in a <==> k in b {
        TextOfElems(k);
        if k in a {
          FileFor(a, k);
        }
        if k in b {
          FileFor(b, k);
        }
      }
      forall k | k in a ensures a[k] == b[k] {
        FileFor(a, k);
        FileFor(b, k);
      }
    }
  }

  // ----- what the last steps of indexing complete -----

  /** The manifest entries among `done` have content rows, as far as their files are stored. */
  ghost predicate Listed(content: Contents, nodes: Nodes, inv: Id, manifest: map<string, Sum>, done: set<string>)
  {
    forall p :: p in manifest && p in done && NodeKey(manifest[p], false) in nodes ==>
        HasContent(content, nodes, inv, manifest[p])
  }

  lemma ListedStep(content: Contents, nodes: Nodes, inv: Id, manifest: map<string, Sum>, done: set<string>, p: string)
    requires Listed(content, nodes, inv, manifest, done) && p in manifest
    ensures Listed(ContentAfter(content, nodes, inv, p, manifest[p]), nodes, inv, manifest, done + {p})
    ensures forall k :: k in content ==> k in ContentAfter(content, nodes, inv, p, manifest[p])
    ensures Listed(content, nodes, inv, manifest, {p}) ==> ContentAfter(content, nodes, inv, p, manifest[p]) == content
  {
  }

  lemma ListedPart(content: Contents, nodes: Nodes, inv: Id, manifest: map<string, Sum>, done: set<string>, p: string)
    requires Listed(content, nodes, inv, manifest, done) && p in done
    ensures Listed(content, nodes, inv, manifest, {p})
  {
  }

  /** Once the manifest is listed, the object's content rows are complete. */
  lemma NowComplete(h: Hash, roots: Roots, invs: Invs, versions: Versions, content: Contents, nodes: Nodes,
                    names: Names, den: Meanings,
                    lib: Library, inv: Inventory, oldVersions: map<nat, VersionInfo>)
    requires Shown(roots, invs, versions, content, nodes, den, lib, {inv.id}) && Graph(h, nodes, names, den, {})
    requires Validated(inv) && inv.id in lib && inv.id in invs
    requires lib[inv.id].versions == Merged(oldVersions, inv, inv.versions.Keys)
    requires CompleteFor(content, nodes, invs[inv.id].id, oldVersions)
    requires Listed(content, nodes, invs[inv.id].id, inv.manifest, inv.manifest.Keys)
    ensures Shown(roots, invs, versions, content, nodes, den, lib, {})
  {
    hide RootsShown, InvsShown, ContentShown, NoStrayVersion, StateTree, PrefixFree, NumOf, Storable, Keyed,
        TrueEdges, Complete, FilesOf;
    var i := inv.id;
    forall n, f | n in lib[i].versions && f in lib[i].versions[n].files
      ensures HasContent(content, nodes, invs[i].id, lib[i].versions[n].files[f])
    {
      if n !in oldVersions {
        assert VersionPresent(invs[i].id, n, lib[i].versions[n], versions, den);
        FileHasContent(h, content, nodes, names, den, inv, n, f, versions[VersionKey(invs[i].id, n)].node, invs[i].id);
      } else {
        assert f in oldVersions[n].files;
      }
    }
    assert CompleteFor(content, nodes, invs[i].id, lib[i].versions);
    hide CompleteFor;
  }

  lemma FileHasContent(h: Hash, content: Contents, nodes: Nodes, names: Names, den: Meanings, inv: Inventory,
                       n: nat, f: Path, node: Id, row: Id)
    requires Graph(h, nodes, names, den, {}) && Validated(inv) && n in inv.versions
    requires f in FilesOf(inv.versions[n].state) && node in den
    requires den[node] == StateTree(FilesOf(inv.versions[n].state))
    requires Listed(content, nodes, row, inv.manifest, inv.manifest.Keys)
    ensures HasContent(content, nodes, row, FilesOf(inv.versions[n].state)[f])
  {
    hide Graph, StateTree, PrefixFree, NumOf, Storable, HasContent;
    var files := FilesOf(inv.versions[n].state);
    StateTreeMeaning(files, f);
    PartsAreStored(h, nodes, names, den, node, f);
    assert KeyOf(h, File(files[f])) == NodeKey(files[f], false);
    assert inv.versions[n].state[Text(f)] == files[f];
  }

  /** Letting an object's content rows be incomplete for a while. */
  lemma SetPending(roots: Roots, invs: Invs, versions: Versions, content: Contents, nodes: Nodes, den: Meanings,
                   lib: Library, i: string)
    requires Shown(roots, invs, versions, content, nodes, den, lib, {}) && i in lib
    ensures Shown(roots, invs, versions, content, nodes, den, lib, {i})
    ensures i in invs && CompleteFor(content, nodes, invs[i].id, lib[i].versions)
  {
    hide RootsShown, VersionsShown, ContentShown, CompleteFor;
  }

  /** A version indexed before has its root row already. */
  lemma KnownVersionStored(h: Hash, roots: Roots, invs: Invs, versions: Versions, content: Contents, nodes: Nodes,
                           den: Meanings,
                           lib: Library, i: string, n: nat, v: Version, pending: set<string>)
    requires Shown(roots, invs, versions, content, nodes, den, lib, pending) && Keyed(h, nodes, den)
    requires i in invs && i in lib && n in lib[i].versions && Agrees(lib[i].versions[n], v)
    ensures KeyOf(h, StateTree(FilesOf(v.state))) in nodes
  {
    hide RootsShown, ContentShown, ContentComplete, StateTree, PrefixFree, NumOf, Storable, KeyOf, FilesOf, Unix,
        VersionsShown;
    VersionRowThere(roots, invs, versions, den, lib, i, n);
    assert KeyOf(h, den[versions[VersionKey(invs[i].id, n)].node]) in nodes;
  }

  /** An object that is up to date keeps its inventory row. */
  lemma UpToDateRow(roots: Roots, invs: Invs, lib: Library, inv: Inventory, path: string, at: int)
    requires RootsShown(roots) && InvsShown(roots, invs, lib) && UpToDate(lib, inv, path)
    ensures var roots' := WithRoot(roots, path, at);
            path in roots' && WithInv(invs, inv, roots'[path].id) == invs
    ensures inv.id in invs
  {
    hide InfoOf, Merged, Known, FilesOf, AllValid, NextId, VersionAcceptable;
    assert lib[inv.id].root == path;
  }

  /** An object that is up to date has its content rows. */
  lemma UpToDateContent(roots: Roots, invs: Invs, versions: Versions, content: Contents, nodes: Nodes, den: Meanings,
                        lib: Library, inv: Inventory, path: string)
    requires Shown(roots, invs, versions, content, nodes, den, lib, {}) && UpToDate(lib, inv, path) && ManifestUsed(inv)
    ensures inv.id in invs && Listed(content, nodes, invs[inv.id].id, inv.manifest, inv.manifest.Keys)
  {
    hide RootsShown, VersionsShown, ContentShown, HasContent, InfoOf, Known, FilesOf, AllValid, Unix;
    forall p | p in inv.manifest ensures HasContent(content, nodes, invs[inv.id].id, inv.manifest[p]) {
      var n, k :| StateHas(inv, n, k, inv.manifest[p]);
      assert VersionAcceptable(lib, inv.id, n, inv.versions[n]);
      var files := lib[inv.id].versions[n].files;
      FileFor(inv.versions[n].state, k);
      assert files == FilesOf(inv.versions[n].state) && Elems(k) in files && files[Elems(k)] == inv.manifest[p];
      assert CompleteFor(content, nodes, invs[inv.id].id, lib[inv.id].versions);
    }
  }

  lemma AcceptableParts(lib: Library, inv: Inventory, path: string)
    ensures Acceptable(lib, inv, path) <==>
            && path != "" && (forall j :: j in lib && j != inv.id ==> lib[j].root != path)
            && VersionsAcceptable(lib, inv, inv.versions.Keys)
    ensures UpToDate(lib, inv, path) ==> VersionsKnown(lib, inv) && Acceptable(lib, inv, path)
    ensures inv.head in inv.versions ==>
              (LibraryAfter(lib, inv, path, {}, {}) == lib[inv.id := Refreshed(lib, inv, path)] &&
               LibraryAfter(lib, inv, path, inv.versions.Keys, inv.manifest.Keys) ==
                 lib[inv.id := Indexed(lib, inv, path)])
    ensures UpToDate(lib, inv, path) ==> lib[inv.id := Indexed(lib, inv, path)] == lib
  {
    hide VersionAcceptable, InfoOf, Known, Refreshed;
    if inv.head in inv.versions {
      ProgressStarts(lib, inv, path);
    }
  }

  ghost predicate VersionsAcceptable(lib: Library, inv: Inventory, vs: set<nat>)
  {
    forall n :: n in inv.versions && n in vs ==> VersionAcceptable(lib, inv.id, n, inv.versions[n])
  }

  ghost predicate VersionsKnown(lib: Library, inv: Inventory)
  {
    forall n :: n in inv.versions ==> inv.id in lib && n in lib[inv.id].versions
  }

  // ----- what indexing adds at most -----

  /** Content rows are only added, and only for one inventory. */
  ghost predicate OnlyFor(content: Contents, content': Contents, inv: Id)
  {
    && (forall k :: k in content ==> k in content' && content'[k] == content[k])
    && (forall k :: k in content' && k !in content ==> k.inv == inv)
  }

  lemma NoneAdded(content: Contents, inv: Id)
    ensures OnlyFor(content, content, inv)
  {
  }

  lemma OneMoreFor(content: Contents, content': Contents, nodes: Nodes, inv: Id, path: string, sum: Sum)
    requires OnlyFor(content, content', inv)
    ensures OnlyFor(content, ContentAfter(content', nodes, inv, path, sum), inv)
  {
  }

  /** The trees of all states, with all their parts, are among `told`. */
  ghost predicate StatesIn(inv: Inventory, told: iset<Tree>)
  {
    forall n :: n in inv.versions ==> PartsIn(StateTree(FilesOf(inv.versions[n].state)), told)
  }

  /** No logical path of any version holds a newline. */
  ghost predicate NoNewlines(inv: Inventory)
  {
    forall n, k :: n in inv.versions && k in inv.versions[n].state ==> '\n' !in k
  }

  /** Without newlines, a collision-free hash tells all trees of all inventories apart. */
  lemma PlainStatesIn(h: Hash, inv: Inventory)
    requires CollisionFree(h) && Validated(inv) && NoNewlines(inv)
    ensures KeysTell(h, PlainTrees()) && StatesIn(inv, PlainTrees())
  {
    hide PrefixFree, FilesOf, NumOf, StateTree, AllNames, KeysTell;
    PlainTreesAreTold(h);
    forall n, u | n in inv.versions && IsPart(u, StateTree(FilesOf(inv.versions[n].state))) ensures PlainNames(u) {
      var t := StateTree(FilesOf(inv.versions[n].state));
      StateIsPlain(inv.versions[n].state);
      var p :| Get(t, p) == Some(u);
      AllNamesBelow(t, Plain, p);
    }
  }

  lemma StateIn(inv: Inventory, told: iset<Tree>, n: nat)
    requires StatesIn(inv, told) && n in inv.versions
    ensures PartsIn(StateTree(FilesOf(inv.versions[n].state)), told)
  {
    hide PartsIn, FilesOf, StateTree;
  }

  /** New node rows all stand for parts of the inventory's states. */
  ghost predicate OnlyStates(den: Meanings, den': Meanings, inv: Inventory)
  {
    forall id :: id in den' && id !in den ==>
        exists n :: n in inv.versions && IsPart(den'[id], StateTree(FilesOf(inv.versions[n].state)))
  }

  lemma NoNewStates(den: Meanings, inv: Inventory)
    ensures OnlyStates(den, den, inv)
  {
  }

  lemma OneMoreState(n1: Nodes, e1: Names, n2: Nodes, e2: Names, den: Meanings, d1: Meanings, d2: Meanings,
                     inv: Inventory, n: nat)
    requires OnlyStates(den, d1, inv) && n in inv.versions && GraphGrows(n1, e1, d1, n2, e2, d2)
    requires OnlyParts(d1, d2, StateTree(FilesOf(inv.versions[n].state)))
    ensures OnlyStates(den, d2, inv)
  {
    hide StateTree, FilesOf, IsPart;
    forall id | id in d2 && id !in den
      ensures exists m :: m in inv.versions && IsPart(d2[id], StateTree(FilesOf(inv.versions[m].state)))
    {
      if id in d1 {
        var m :| m in inv.versions && IsPart(d1[id], StateTree(FilesOf(inv.versions[m].state)));
        assert d2[id] == d1[id];
      } else {
        assert IsPart(d2[id], StateTree(FilesOf(inv.versions[n].state)));
      }
    }
  }

  // ----- what the schema's constraints ask for -----

  /** Version names are unique within an inventory, so inserting a version with a
      new number never violates that constraint. */
  lemma VersionNamesAreUnique(invs: Invs, versions: Versions, den: Meanings, lib: Library, k: VersionKey, l: VersionKey)
    requires VersionsShown(invs, versions, den, lib)
    requires k in versions && l in versions && k.inv == l.inv && versions[k].name == versions[l].name
    ensures k == l && NumOf(versions[k].name) == k.num
  {
    hide NumOf, PrefixFree, StateTree;
    NumberOfRow(invs, versions, den, lib, k);
    NumberOfRow(invs, versions, den, lib, l);
  }

  lemma NumberOfRow(invs: Invs, versions: Versions, den: Meanings, lib: Library, k: VersionKey)
    requires VersionsShown(invs, versions, den, lib) && k in versions
    ensures NumOf(versions[k].name) == k.num && versions[k].node in den
    ensures exists i :: i in invs && invs[i].id == k.inv
  {
    hide NumOf, PrefixFree, StateTree;
    var i :| OwnsVersion(invs, lib, i, k);
    assert VersionPresent(invs[i].id, k.num, lib[i].versions[k.num], versions, den);
    assert k == VersionKey(invs[i].id, k.num);
  }
}
