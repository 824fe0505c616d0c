/** Paged lists of object roots and of objects, and the object at a root in full. */
module Listings {
  import opened Trees
  import opened Ordering
  import opened States
  import opened Digests
  import opened Merkle
  import opened Objects
  import opened Paging
  import Tables

  datatype RootItem = RootItem(path: string, indexedAt: int)

  datatype ObjectItem = ObjectItem(rootPath: string, id: string, head: string, spec: string,
                                   v1Created: int, headCreated: int)

  datatype ObjectVersion = ObjectVersion(name: string, message: string, created: int, user: Option<User>)

  datatype ObjectInfo = ObjectInfo(rootPath: string, id: string, spec: string, algorithm: string, digest: string,
      head: string,
                                   versions: seq<ObjectVersion>)

  // ----- object roots -----

  ghost function RootItems(roots: Roots, paths: seq<string>): (r: seq<RootItem>)
    requires forall p :: p in paths ==> p in roots
    ensures |r| == |paths| && forall i :: 0 <= i < |r| ==> r[i] == RootItem(paths[i], roots[paths[i]].indexedAt)
  {
    seq(|paths|, i requires 0 <= i < |paths| => RootItem(paths[i], roots[paths[i]].indexedAt))
  }

  lemma PageMembers(keys: set<string>, cursor: string, limit: nat)
    requires limit > 0
    ensures forall k :: k in PageAfter(keys, cursor, limit).items ==> k in keys && Less(cursor, k)
  {
    var all := After(keys, cursor);
    assert forall k :: k in PageAfter(keys, cursor, limit).items ==> k in all;
  }

  lemma FirstRows(keys: set<string>, cursor: string, limit: nat)
    ensures var all := After(keys, cursor);
            forall k :: k in (if |all| <= limit then all else all[..limit]) ==> k in keys
  {
    var all := After(keys, cursor);
    assert forall k :: k in all[..if |all| <= limit then |all| else limit] ==> k in all;
  }

  /** One page of the object roots, with their times. */
  method ListObjectRoots(tx: Tables.Tx, limit: int, cursor: string) returns (items: seq<RootItem>, next: string)
    ensures var page := PageAfter(tx.roots.Keys, cursor, PageSize(limit));
            && (forall p :: p in page.items ==> p in tx.roots)
            && items == RootItems(tx.roots, page.items) && next == page.next
    ensures var all := After(tx.roots.Keys, cursor);
            var size := if 1 <= limit <= 1000 then limit else 1000;
            && |items| == (if |all| <= size then |all| else size)
            && (forall i :: 0 <= i < |items| ==> items[i].path == all[i])
            && next == if |all| <= size then "" else all[size - 1]
  {
    hide *;
    var size := PageSize(limit);
    PageIs(tx.roots.Keys, cursor, size);
    ghost var keys := tx.roots.Keys;
    PageMembers(keys, cursor, size);
    FirstRows(keys, cursor, size + 1);
    var rows := SelectAfter(tx.roots.Keys, cursor, size + 1);
    next := "";
    var count := |rows|;
    if |rows| == size + 1 {
      next := rows[size - 1];
      count := size;
    }
    PageOfRows(keys, cursor, size, rows);
    items := [];
    while |items| < count
      invariant |items| <= count
      invariant forall i :: 0 <= i < |items| ==> items[i] == RootItem(rows[i], tx.roots[rows[i]].indexedAt)
    {
      var p := rows[|items|];
      assert p in rows;
      items := items + [RootItem(p, tx.roots[p].indexedAt)];
    }
  }

  // ----- the object at a root -----

  /** Who sits at a root: the inventory row that refers to it. */
  lemma RootHolds(roots: Roots, invs: Invs, lib: Library, path: string)
    requires RootsShown(roots) && InvsShown(roots, invs, lib)
    ensures forall i :: i in invs && path in roots && invs[i].rootId == roots[path].id <==>
              i in lib && lib[i].root == path
    ensures forall i, j :: i in lib && j in lib && lib[i].root == lib[j].root ==> i == j
    ensures forall i :: i in lib ==> invs[i].digest == lib[i].digest
  {
    forall i | i in lib
      ensures path in roots && invs[i].rootId == roots[path].id <==> lib[i].root == path
    {
      assert roots[lib[i].root].id == invs[i].rootId;
    }
    forall i, j | i in lib && j in lib && lib[i].root == lib[j].root ensures i == j {
      assert roots[lib[i].root].id == invs[i].rootId && roots[lib[j].root].id == invs[j].rootId;
    }
  }

  /** Numbers in increasing order. */
  function Ascending(nums: set<nat>): (r: seq<nat>)
    ensures forall n :: n in r <==> n in nums
    ensures forall i, j :: 0 <= i < j < |r| ==> r[i] < r[j]
    decreases |nums|
  {
    if nums == {} then []
    else
      var last := MaxId(nums);
      assert forall n :: n in nums <==> n == last || n in nums - {last};
      Ascending(nums - {last}) + [last]
  }

  /** No user is shown for a version without a user name. */
  function UserShown(name: string, address: string): Option<User>
  {
    if name != "" then Some(User(name, address)) else None
  }

  function VersionOf(v: VersionInfo): ObjectVersion
  {
    ObjectVersion(v.name, v.message, v.created, UserShown(v.userName, v.userAddress))
  }

  /** An object in full, its versions by increasing number. */
  ghost function InfoFor(lib: Library, id: string): ObjectInfo
    requires id in lib
  {
    var o, nums := lib[id], Ascending(lib[id].versions.Keys);
    ObjectInfo(o.root, id, o.spec, o.algorithm, o.digest, o.head,
               seq(|nums|, k requires 0 <= k < |nums| => assert nums[k] in nums; VersionOf(o.versions[nums[k]])))
  }

  function NumsOf(versions: Versions, inv: Id): set<nat>
  {
    set k | k in versions && k.inv == inv :: k.num
  }

  lemma NumsMeaning(tx: Tables.Tx, i: string)
    requires tx.Shows({}) && i in tx.invs
    ensures i in tx.lib && NumsOf(tx.versions, tx.invs[i].id) == tx.lib[i].versions.Keys
    ensures forall n :: n in tx.lib[i].versions ==>
              && VersionKey(tx.invs[i].id, n) in tx.versions
              && RowShown(tx.versions[VersionKey(tx.invs[i].id, n)]) == VersionOf(tx.lib[i].versions[n])
    ensures var row, o := tx.invs[i], tx.lib[i];
            row.spec == o.spec && row.algorithm == o.algorithm && row.digest == o.digest && row.head == o.head
  {
    hide ContentShown, ContentComplete, StateTree, PrefixFree, NumOf, VersionsShown;
    SameIds(tx.roots, tx.invs, tx.lib);
    forall n ensures VersionKey(tx.invs[i].id, n) in tx.versions <==> n in tx.lib[i].versions {
      VersionRowThere(tx.roots, tx.invs, tx.versions, tx.den, tx.lib, i, n);
    }
    forall n ensures n in NumsOf(tx.versions, tx.invs[i].id) <==> VersionKey(tx.invs[i].id, n) in tx.versions {
      if n in NumsOf(tx.versions, tx.invs[i].id) {
        var k :| k in tx.versions && k.inv == tx.invs[i].id && k.num == n;
        assert k == VersionKey(tx.invs[i].id, n);
      }
      assert VersionKey(tx.invs[i].id, n).num == n;
    }
    forall n | n in tx.lib[i].versions
      ensures RowShown(tx.versions[VersionKey(tx.invs[i].id, n)]) == VersionOf(tx.lib[i].versions[n])
    {
      VersionRowThere(tx.roots, tx.invs, tx.versions, tx.den, tx.lib, i, n);
    }
  }

  function RowShown(v: VersionRow): ObjectVersion
  {
    ObjectVersion(v.name, v.message, v.created, UserShown(v.userName, v.userAddress))
  }

  lemma VersionItems(lib: Library, id: string)
    requires id in lib
    ensures var nums, items := Ascending(lib[id].versions.Keys), InfoFor(lib, id).versions;
            && |items| == |nums|
            && (forall k :: 0 <= k < |items| ==>
                  nums[k] in lib[id].versions && items[k] == VersionOf(lib[id].versions[nums[k]]))
            && (forall k :: 0 <= k < |items| ==>
                  var v := lib[id].versions[nums[k]];
                  items[k] == ObjectVersion(v.name, v.message, v.created,
                                            if v.userName == "" then None else Some(User(v.userName, v.userAddress))))
  {
    var nums := Ascending(lib[id].versions.Keys);
    assert forall k :: 0 <= k < |nums| ==> nums[k] in nums;
  }

  /** The versions of an object, by increasing number. */
  method ListVersions(tx: Tables.Tx, i: string) returns (items: seq<ObjectVersion>)
    requires tx.Shows({}) && i in tx.invs
    ensures i in tx.lib && items == InfoFor(tx.lib, i).versions
  {
    hide *;
    NumsMeaning(tx, i);
    VersionItems(tx.lib, i);
    var nums := Ascending(NumsOf(tx.versions, tx.invs[i].id));
    items := [];
    while |items| < |nums|
      invariant |items| <= |nums|
      invariant forall k :: 0 <= k < |items| ==>
                  nums[k] in tx.lib[i].versions && items[k] == VersionOf(tx.lib[i].versions[nums[k]])
    {
      var n := nums[|items|];
      assert n in nums;
      items := items + [RowShown(tx.versions[VersionKey(tx.invs[i].id, n)])];
    }
  }

  /** The object indexed at a root, if there is one. */
  method GetObjectByPath(tx: Tables.Tx, path: string, ghost h: Hash) returns (r: Option<ObjectInfo>)
    requires tx.Valid(h)
    ensures forall i :: i in tx.lib && tx.lib[i].root == path ==> r == Some(InfoFor(tx.lib, i))
    ensures forall i :: i in tx.lib && tx.lib[i].root == path ==>
              var o, nums := tx.lib[i], Ascending(tx.lib[i].versions.Keys);
              && r.value == ObjectInfo(path, i, o.spec, o.algorithm, o.digest, o.head, r.value.versions)
              && |r.value.versions| == |nums|
              && forall k :: 0 <= k < |nums| ==>
                  && nums[k] in o.versions
                  && var v := o.versions[nums[k]];
                     r.value.versions[k] ==
                       ObjectVersion(v.name, v.message, v.created,
                                     if v.userName == "" then None else Some(User(v.userName, v.userAddress)))
    ensures (forall i :: i in tx.lib ==> tx.lib[i].root != path) ==> r == None
  {
    hide VersionsShown, ContentShown, ContentComplete, RootsShown, InvsShown, Graph, InfoFor, VersionOf, Ascending;
    RootHolds(tx.roots, tx.invs, tx.lib, path);
    if i :| i in tx.invs && path in tx.roots && tx.invs[i].rootId == tx.roots[path].id {
      var row := tx.invs[i];
      NumsMeaning(tx, i);
      var versions := ListVersions(tx, i);
      InfoIs(tx.lib, i);
      VersionItems(tx.lib, i);
      r := Some(ObjectInfo(path, i, row.spec, row.algorithm, row.digest, row.head, versions));
    } else {
      r := None;
    }
  }

  lemma InfoIs(lib: Library, id: string)
    requires id in lib
    ensures var o := lib[id];
            InfoFor(lib, id) == ObjectInfo(o.root, id, o.spec, o.algorithm, o.digest, o.head, InfoFor(lib, id).versions)
  {
  }

  /** What is shown of an object that an inventory has just been indexed for: the
      inventory's own fields, its new versions as it describes them, and those
      indexed earlier as they were. */
  lemma IndexedIsShown(lib: Library, inv: Inventory, path: string)
    requires inv.head in inv.versions
    ensures var lib' := lib[inv.id := Indexed(lib, inv, path)];
            var info, nums := InfoFor(lib', inv.id), Ascending(lib'[inv.id].versions.Keys);
            && info.rootPath == path && info.id == inv.id && info.spec == inv.spec
            && info.algorithm == inv.algorithm && info.digest == inv.digest
            && info.head == inv.versions[inv.head].name && |info.versions| == |nums|
            && (forall n :: n in nums <==> n in inv.versions || (inv.id in lib && n in lib[inv.id].versions))
            && forall k :: 0 <= k < |nums| ==>
                if inv.id in lib && nums[k] in lib[inv.id].versions
                then info.versions[k] == VersionOf(lib[inv.id].versions[nums[k]])
                else nums[k] in inv.versions && ShowsVersion(info.versions[k], inv.versions[nums[k]])
  {
    hide *;
    var lib' := lib[inv.id := Indexed(lib, inv, path)];
    IndexedFields(lib, inv, path);
    InfoIs(lib', inv.id);
    VersionItems(lib', inv.id);
    forall v: Version ensures ShowsVersion(VersionOf(InfoOf(v)), v) {
      InfoShown(v);
    }
  }

  lemma IndexedFields(lib: Library, inv: Inventory, path: string)
    requires inv.head in inv.versions
    ensures var o := Indexed(lib, inv, path);
            && o.root == path && o.spec == inv.spec && o.algorithm == inv.algorithm
            && o.digest == inv.digest && o.head == inv.versions[inv.head].name
            && (forall n :: n in o.versions <==> n in inv.versions || (inv.id in lib && n in lib[inv.id].versions))
            && forall n :: n in o.versions ==>
                 o.versions[n] == if inv.id in lib && n in lib[inv.id].versions then lib[inv.id].versions[n]
                                  else InfoOf(inv.versions[n])
  {
    hide InfoOf, Known;
  }

  lemma InfoShown(v: Version)
    ensures ShowsVersion(VersionOf(InfoOf(v)), v)
  {
  }

  /** Its name, message and time, and its user if that has a name. */
  ghost predicate ShowsVersion(shown: ObjectVersion, v: Version)
  {
    && shown.name == v.name && shown.message == v.message && shown.created == v.created
    && shown.user == if v.user.Some? && v.user.value.name != "" then v.user else None
  }

  // ----- objects -----

  /** Whether the list's joins find the object: its root, its head version and its first version. */
  predicate Joined(roots: Roots, invs: Invs, versions: Versions, i: string)
    requires i in invs
  {
    && (exists p :: p in roots && roots[p].id == invs[i].rootId)
    && (exists k :: k in versions && k.inv == invs[i].id && versions[k].name == invs[i].head)
    && VersionKey(invs[i].id, 1) in versions
  }

  /** Objects that have a first version and the version named as their head. */
  ghost predicate Listable(o: Object)
  {
    1 in o.versions && NumOf(o.head) in o.versions && o.versions[NumOf(o.head)].name == o.head
  }

  /** The item shows the object's own fields, with the times of its first and its head version. */
  ghost predicate ShowsObject(item: ObjectItem, lib: Library, id: string)
  {
    && id in lib && Listable(lib[id])
    && var o := lib[id];
       item == ObjectItem(o.root, id, o.head, o.spec, o.versions[1].created, o.versions[NumOf(o.head)].created)
  }

  /** The objects listed for a filter on ids. */
  ghost function ListedIds(lib: Library, keep: string -> bool): (r: set<string>)
    ensures forall i :: i in r <==> i in lib && keep(i) && Listable(lib[i])
  {
    set i | i in lib && keep(i) && Listable(lib[i])
  }

  lemma ListedMeaning(lib: Library, keep: string -> bool, i: string)
    ensures i in ListedIds(lib, keep) <==>
            && i in lib && keep(i) && 1 in lib[i].versions && NumOf(lib[i].head) in lib[i].versions
            && lib[i].versions[NumOf(lib[i].head)].name == lib[i].head
  {
    hide NumOf;
  }

  lemma JoinedMeaning(tx: Tables.Tx, i: string)
    requires tx.Shows({}) && i in tx.invs
    ensures i in tx.lib && (Joined(tx.roots, tx.invs, tx.versions, i) <==> Listable(tx.lib[i]))
    ensures Joined(tx.roots, tx.invs, tx.versions, i) ==>
              && tx.versions[VersionKey(tx.invs[i].id, 1)].created == tx.lib[i].versions[1].created
              && forall k :: k in tx.versions && k.inv == tx.invs[i].id && tx.versions[k].name == tx.invs[i].head ==>
                   tx.versions[k].created == tx.lib[i].versions[NumOf(tx.lib[i].head)].created
    ensures forall p :: p in tx.roots && tx.roots[p].id == tx.invs[i].rootId ==> p == tx.lib[i].root
    ensures tx.invs[i].head == tx.lib[i].head && tx.invs[i].spec == tx.lib[i].spec
  {
    hide ContentShown, ContentComplete, StateTree, PrefixFree, NumOf, VersionsShown;
    SameIds(tx.roots, tx.invs, tx.lib);
    var inv := tx.invs[i];
    VersionRowThere(tx.roots, tx.invs, tx.versions, tx.den, tx.lib, i, 1);
    VersionRowThere(tx.roots, tx.invs, tx.versions, tx.den, tx.lib, i, NumOf(inv.head));
    forall k | k in tx.versions && k.inv == inv.id && tx.versions[k].name == inv.head
      ensures k.num == NumOf(inv.head) && k.num in tx.lib[i].versions && tx.lib[i].versions[k.num].name == inv.head
      ensures tx.versions[k].created == tx.lib[i].versions[k.num].created
    {
      VersionRowThere(tx.roots, tx.invs, tx.versions, tx.den, tx.lib, i, k.num);
      assert k == VersionKey(inv.id, k.num);
    }
    if Listable(tx.lib[i]) {
      assert tx.versions[VersionKey(inv.id, NumOf(inv.head))].name == inv.head;
    }
  }

  /** One page of the objects whose ids pass the filter. */
  method ListObjects(tx: Tables.Tx, keep: string -> bool, limit: int, cursor: string, ghost h: Hash)
      returns (items: seq<ObjectItem>, next: string)
    requires tx.Valid(h)
    ensures var page := PageAfter(ListedIds(tx.lib, keep), cursor, PageSize(limit));
            && |items| == |page.items| && next == page.next
            && forall k :: 0 <= k < |items| ==> ShowsObject(items[k], tx.lib, page.items[k])
    ensures var all := After(ListedIds(tx.lib, keep), cursor);
            var size := if 1 <= limit <= 1000 then limit else 1000;
            && |items| == (if |all| <= size then |all| else size)
            && (forall k :: 0 <= k < |items| ==> items[k].id == all[k])
            && next == if |all| <= size then "" else all[size - 1]
    ensures forall item :: item in items ==>
              FirstMadeAt(tx.lib, item.id, item.v1Created) && HeadMadeAt(tx.lib, item.id, item.headCreated)
  {
    hide *;
    tx.ValidIs(h);
    var size := PageSize(limit);
    PageIs(ListedIds(tx.lib, keep), cursor, size);
    var ids := JoinedIds(tx, keep);
    IdsListed(tx, keep);
    FirstRows(ids, cursor, size + 1);
    var rows := SelectAfter(ids, cursor, size + 1);
    var count := |rows|;
    next := "";
    if count > size {
      count := size;
      next := rows[|rows| - 2];
    }
    PageOfRows(ids, cursor, size, rows);
    forall i | i in rows ensures i in tx.invs && Joined(tx.roots, tx.invs, tx.versions, i) {
      JoinedIdIs(tx, keep, i);
    }
    items := ItemsAt(tx, rows[..count]);
  }

  /** The joined rows of several objects. */
  method ItemsAt(tx: Tables.Tx, ids: seq<string>) returns (items: seq<ObjectItem>)
    requires tx.Shows({})
    requires forall i :: i in ids ==> i in tx.invs && Joined(tx.roots, tx.invs, tx.versions, i)
    ensures |items| == |ids|
    ensures forall k :: 0 <= k < |items| ==> ShowsObject(items[k], tx.lib, ids[k]) && items[k].id == ids[k]
    ensures forall item :: item in items ==>
              FirstMadeAt(tx.lib, item.id, item.v1Created) && HeadMadeAt(tx.lib, item.id, item.headCreated)
  {
    hide *;
    items := [];
    while |items| < |ids|
      invariant |items| <= |ids|
      invariant forall k :: 0 <= k < |items| ==> ShowsObject(items[k], tx.lib, ids[k]) && items[k].id == ids[k]
      invariant forall item :: item in items ==>
                  FirstMadeAt(tx.lib, item.id, item.v1Created) && HeadMadeAt(tx.lib, item.id, item.headCreated)
    {
      var i := ids[|items|];
      assert i in ids;
      var item := ItemAt(tx, i);
      ItemShown(item, tx.lib, i);
      items := items + [item];
    }
  }

  ghost predicate FirstMadeAt(lib: Library, id: string, time: int)
  {
    id in lib && 1 in lib[id].versions && lib[id].versions[1].created == time
  }

  /** The version that has the name of the head was made then. */
  ghost predicate HeadMadeAt(lib: Library, id: string, time: int)
  {
    id in lib && exists n :: n in lib[id].versions && lib[id].versions[n].name == lib[id].head
                             && lib[id].versions[n].created == time
  }

  lemma ItemShown(item: ObjectItem, lib: Library, i: string)
    requires ShowsObject(item, lib, i)
    ensures i in lib && item.id == i && item.rootPath == lib[i].root && item.head == lib[i].head
    ensures item.spec == lib[i].spec && FirstMadeAt(lib, i, item.v1Created) && HeadMadeAt(lib, i, item.headCreated)
  {
    hide NumOf;
    assert lib[i].versions[NumOf(lib[i].head)].name == lib[i].head;
  }

  /** The joined row of one object. */
  method ItemAt(tx: Tables.Tx, i: string) returns (item: ObjectItem)
    requires tx.Shows({}) && i in tx.invs && Joined(tx.roots, tx.invs, tx.versions, i)
    ensures ShowsObject(item, tx.lib, i)
  {
    hide Shown, NumOf;
    JoinedMeaning(tx, i);
    var inv := tx.invs[i];
    var p :| p in tx.roots && tx.roots[p].id == inv.rootId;
    var k :| k in tx.versions && k.inv == inv.id && tx.versions[k].name == inv.head;
    item := ObjectItem(p, i, inv.head, inv.spec, tx.versions[VersionKey(inv.id, 1)].created, tx.versions[k].created);
  }

  function JoinedIds(tx: Tables.Tx, keep: string -> bool): set<string>
    reads tx
  {
    set i | i in tx.invs && keep(i) && Joined(tx.roots, tx.invs, tx.versions, i)
  }

  lemma JoinedIdIs(tx: Tables.Tx, keep: string -> bool, i: string)
    requires i in JoinedIds(tx, keep)
    ensures i in tx.invs && Joined(tx.roots, tx.invs, tx.versions, i)
  {
  }

  /** The page in a query result that may hold one row more. */
  lemma PageOfRows(keys: set<string>, cursor: string, limit: nat, rows: seq<string>)
    requires limit > 0
    requires rows == if |After(keys, cursor)| <= limit + 1 then After(keys, cursor)
                     else After(keys, cursor)[..limit + 1]
    ensures |rows| <= limit + 1
    ensures var page := PageAfter(keys, cursor, limit);
            && page.items == rows[..if |rows| > limit then limit else |rows|]
            && page.next == if |rows| > limit then rows[limit - 1] else ""
  {
    hide After;
  }

  lemma IdsListed(tx: Tables.Tx, keep: string -> bool)
    requires tx.Shows({})
    ensures JoinedIds(tx, keep) == ListedIds(tx.lib, keep)
  {
    hide Joined, Listable, RootsShown, ContentShown, ContentComplete, VersionsShown;
    SameIds(tx.roots, tx.invs, tx.lib);
    forall i | i in tx.invs
      ensures i in tx.lib && (Joined(tx.roots, tx.invs, tx.versions, i) <==> Listable(tx.lib[i]))
    {
      JoinedMeaning(tx, i);
    }
  }
}
