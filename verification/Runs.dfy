/** Whole runs of the indexer, and what the index answers afterwards. */
module Runs {
  import opened Trees
  import opened Paths
  import opened States
  import opened Digests
  import opened IndexTree
  import opened Merkle
  import opened Objects
  import opened Tables
  import opened Sweep
  import opened Indexer
  import Queries

  /** The inventory at `p`, whose result comes next, cannot be indexed. */
  ghost predicate Refused(lib: Library, catalog: Catalog, keys: set<string>, done: seq<string>, p: string)
  {
    p in keys && p !in done && catalog(p).Some? && !Acceptable(Effect(lib, catalog, done), catalog(p).value, p)
  }

  lemma RefusedIs(lib: Library, catalog: Catalog, keys: set<string>, done: seq<string>, p: string)
    ensures Refused(lib, catalog, keys, done, p) <==>
            p in keys && p !in done && catalog(p).Some? && !Acceptable(Effect(lib, catalog, done), catalog(p).value, p)
  {
    hide Acceptable, Effect;
  }

  /** Takes one possible action after another (listing a page, parsing an
      inventory, dealing with a result), in any order, until everything is done
      or the run stops at an inventory that is not acceptable. */
  method RunToEnd(run: Indexing)
    requires run.Valid() && !run.stopped
    modifies run, run.db, run.tx
    ensures run.Valid() && (fresh(run.tx) || run.tx == old(run.tx))
    ensures if run.stopped then exists p :: Refused(run.lib0, run.catalog, run.keys, run.done, p)
            else !run.listing && run.waiting == {} && run.jobs == map[]
  {
    hide *;
    while !run.stopped && (run.listing || run.waiting != {} || run.jobs != map[])
      invariant run.Valid() && (fresh(run.tx) || run.tx == old(run.tx))
      invariant run.stopped ==> exists p :: Refused(run.lib0, run.catalog, run.keys, run.done, p)
      decreases run.Left()
    {
      if
      case run.listing => run.ListPage();
      case run.waiting != {} =>
        var p :| p in run.waiting;
        run.Parse(p);
      case run.jobs != map[] =>
        SomeJob(run.jobs);
        var p :| p in run.jobs;
        var now: int := *;
        RefusedIs(run.lib0, run.catalog, run.keys, run.done, p);
        run.Deliver(p, now);
    }
  }

  lemma SomeJob(jobs: map<string, Job>)
    requires jobs != map[]
    ensures exists p :: p in jobs
  {
    assert jobs.Keys != {};
    var p :| p in jobs.Keys;
  }

  /** Indexes the inventories of all roots, in any order of events. The database
      shows, at the end or where the run breaks off, the effect of the first
      `kept` results, each wholly indexed, and so has every commit on the way. It is
      fit for another run in any case. The run is complete, with one result
      for every root, unless it meets an inventory that is not acceptable; then a
      multiple of ten inventories have been indexed for good, and fewer than ten more
      are lost. If no valid inventory has changed, none is indexed again. */
  method IndexInventories(db: Database, catalog: Catalog, h: Hash, ghost known: Inventory -> bool,
                          ghost told: iset<Tree>)
      returns (ok: bool, ghost done: seq<string>, ghost kept: nat, ghost results: seq<Job>)
    requires Telling(h, told, catalog, db.committed.roots.Keys) && Stocked(db.committed.den, told)
    requires db.committed.Valid(h)
    requires Lawful(catalog, db.committed.roots.Keys, known) && Sourced(db.committed.lib, known)
    modifies db
    ensures db.committed.Valid(h) && db.committed.roots.Keys == old(db.committed.roots).Keys
    ensures Stocked(db.committed.den, told)
    ensures kept <= |done| && db.committed.lib == Effect(old(db.committed.lib), catalog, done[..kept])
    ensures Sourced(db.committed.lib, known) && (ok ==> kept == |done|)
    ensures CommitsShown(db.commits, old(db.commits), old(db.committed.lib), catalog, db.committed.roots.Keys, done)
    ensures ok ==> forall p :: p in done <==> p in db.committed.roots
    ensures ok ==> forall i, j :: 0 <= i < j < |done| ==> done[i] != done[j]
    ensures !ok ==> exists p :: Refused(old(db.committed.lib), catalog, db.committed.roots.Keys, done, p)
    ensures |results| == |done|
    ensures ResultsRead(old(db.committed.lib), catalog, db.committed.roots.Keys, done, results)
    ensures !ok ==> Renewals(results[..kept]) % 10 == 0 && Renewals(results[kept..]) < 10
    ensures OnlyRenewed(old(db.committed.roots), db.committed.roots, done[..kept], results[..kept])
    ensures Unchanged(old(db.committed.lib), catalog, old(db.committed.roots).Keys) ==>
              ok && Renewals(results) == 0 && db.committed.lib == old(db.committed.lib)
  {
    hide *;
    NoEmptyRoot(db.committed, h);
    var run := new Indexing(db, catalog, h, known, told);
    RunToEnd(run);
    run.Parts();
    done, results, kept := run.done, run.results, run.kept;
    if Unchanged(run.lib0, catalog, run.keys) {
      IdsDistinct(catalog, run.keys, known);
      NothingToIndex(run.lib0, catalog, run.keys, done, results);
      NoneRefused(run.lib0, catalog, run.keys, done);
    }
    ok := !run.stopped;
    if ok {
      run.Finish();
      assert done[..|done|] == done && results[..|done|] == results;
      kept := |done|;
    }
  }

  lemma IdsDistinct(catalog: Catalog, keys: set<string>, known: Inventory -> bool)
    requires Lawful(catalog, keys, known)
    ensures DistinctIds(catalog, keys)
  {
    hide Validated;
  }

  lemma NoneRefused(lib: Library, catalog: Catalog, keys: set<string>, done: seq<string>)
    requires Unchanged(lib, catalog, keys) && Effect(lib, catalog, done) == lib
    ensures forall p :: !Refused(lib, catalog, keys, done, p)
  {
    hide Acceptable, Effect, Indexed;
    forall p ensures !Refused(lib, catalog, keys, done, p) {
      if p in keys && catalog(p).Some? {
        assert UpToDate(lib, catalog(p).value, p);
      }
    }
  }

  lemma NoEmptyRoot(tx: Tx, h: Hash)
    requires tx.Valid(h)
    ensures "" !in tx.roots
  {
    hide Graph, InvsShown, VersionsShown, ContentShown, ContentComplete;
  }

  /** Later results leave what an inventory's own result has written. */
  lemma {:induction false} EffectShows(lib: Library, catalog: Catalog, keys: set<string>, known: Inventory -> bool,
                                       done: seq<string>, p: string)
    requires Lawful(catalog, keys, known) && (forall q :: q in done ==> q in keys)
    requires p in done && catalog(p).Some?
    ensures var r, inv := Effect(lib, catalog, done), catalog(p).value;
            inv.id in r && r[inv.id].root == p && r[inv.id].digest == inv.digest
    decreases |done|
  {
    hide Indexed, Validated;
    var last := |done| - 1;
    var q := done[last];
    var before := Effect(lib, catalog, done[..last]);
    var inv := catalog(p).value;
    HeadIsThere(inv);
    if q == p {
      IndexedRoot(before, inv, p);
    } else {
      assert p in done[..last] && q in done;
      EffectShows(lib, catalog, keys, known, done[..last], p);
    }
  }

  /** A complete run leaves every root's inventory, if it is valid, indexed as it is. */
  lemma AllUpToDate(lib: Library, catalog: Catalog, keys: set<string>, known: Inventory -> bool, done: seq<string>,
                    p: string)
    requires Lawful(catalog, keys, known) && (forall q :: q in done <==> q in keys)
    requires p in keys && catalog(p).Some? && Sourced(Effect(lib, catalog, done), known)
    ensures UpToDate(Effect(lib, catalog, done), catalog(p).value, p)
  {
    hide Effect, UpToDate, Validated;
    var r, inv := Effect(lib, catalog, done), catalog(p).value;
    EffectShows(lib, catalog, keys, known, done, p);
    var s :| SourceOf(r, known, inv.id, s);
    AloneAtRoot(r, s, r[inv.id].root);
    assert s == inv;
  }

  /** The roots after a scan: those found, and those marked since its start already. */
  ghost function RootsLeft(roots: Roots, scan: Scan, start: int): (r: set<string>)
    ensures forall p :: p in r <==> p in scan.found || (p in roots && roots[p].indexedAt >= start)
  {
    Found(scan) + set p | p in roots && roots[p].indexedAt >= start
  }

  /** Indexing everything: the roots left are exactly those of the scan (and any
      newer than its start), and each whose inventory is valid has that inventory
      indexed, wholly and as it is now. It fails only if the scan does, and then no
      object has changed, or if an inventory is not acceptable, and then the database
      shows the first `kept` results. It is fit for another run in any case. */
  method IndexAll(db: Database, scan: Scan, start: int, times: seq<int>, catalog: Catalog, h: Hash,
                  ghost known: Inventory -> bool, ghost told: iset<Tree>)
      returns (ok: bool, ghost done: seq<string>, ghost kept: nat, ghost results: seq<Job>)
    requires db.committed.Valid(h) && Sourced(db.committed.lib, known) && Stocked(db.committed.den, told)
    requires Telling(h, told, catalog, RootsLeft(db.committed.roots, scan, start))
    requires |scan.found| <= |times| && InOrder([start] + times)
    requires Lawful(catalog, RootsLeft(db.committed.roots, scan, start), known)
    modifies db
    ensures db.committed.Valid(h) && Sourced(db.committed.lib, known) && Stocked(db.committed.den, told)
    ensures ok ==> scan.complete && "" !in scan.found
    ensures ok ==> forall p :: p in db.committed.roots && catalog(p).Some? ==>
              UpToDate(db.committed.lib, catalog(p).value, p)
    ensures !(scan.complete && "" !in scan.found) ==>
              db.committed.lib == old(db.committed.lib) && old(db.committed.roots).Keys <= db.committed.roots.Keys
    ensures scan.complete && "" !in scan.found ==>
              && db.committed.roots.Keys == RootsLeft(old(db.committed.roots), scan, start)
              && kept <= |done|
              && db.committed.lib == Effect(LibraryOf(old(db.committed.lib), db.committed.roots), catalog, done[..kept])
    ensures scan.complete && "" !in scan.found ==>
              && |results| == |done|
              && ResultsRead(LibraryOf(old(db.committed.lib), db.committed.roots), catalog, db.committed.roots.Keys,
                   done, results)
              && (!ok ==> Renewals(results[..kept]) % 10 == 0 && Renewals(results[kept..]) < 10)
    ensures scan.complete && "" !in scan.found && !ok ==>
              exists p :: Refused(LibraryOf(old(db.committed.lib), db.committed.roots), catalog,
                db.committed.roots.Keys, done, p)
  {
    hide *;
    ghost var lib0 := db.committed.lib;
    ghost var keys := RootsLeft(db.committed.roots, scan, start);
    ok := SyncObjectRoots(db, scan, start, times, h);
    done, kept, results := [], 0, [];
    if !ok {
      return;
    }
    assert db.committed.roots.Keys == keys;
    FewerAreSourced(lib0, known, db.committed.roots);
    ghost var lib1, roots1 := db.committed.lib, db.committed.roots;
    ok, done, kept, results := IndexInventories(db, catalog, h, known, told);
    SameLibrary(lib0, roots1, db.committed.roots);
    if ok {
      assert done[..kept] == done;
      forall p | p in db.committed.roots && catalog(p).Some? ensures UpToDate(db.committed.lib, catalog(p).value, p) {
        AllUpToDate(lib1, catalog, keys, known, done, p);
      }
    }
  }

  lemma SameLibrary(lib: Library, roots: Roots, roots': Roots)
    requires roots.Keys == roots'.Keys
    ensures LibraryOf(lib, roots) == LibraryOf(lib, roots')
  {
    assert forall p :: p in roots <==> p in roots';
  }

  // ----- what the index answers about an inventory that is up to date -----

  /** Every version of the inventory is there, with its state. */
  lemma UpToDateVersion(lib: Library, inv: Inventory, path: string, n: nat)
    requires UpToDate(lib, inv, path) && n in inv.versions
    ensures inv.id in lib && inv.head in inv.versions
    ensures n in lib[inv.id].versions && lib[inv.id].versions[n].files == FilesOf(inv.versions[n].state)
    ensures lib[inv.id].head == inv.versions[inv.head].name
  {
    hide FilesOf, AllValid, Unix;
    assert VersionAcceptable(lib, inv.id, n, inv.versions[n]);
  }

  /** A version is answered from the inventory itself (each file with its own
      digest, each directory with exactly its children or all the files below it,
      and nothing else) exactly if it keeps the name it was first indexed under;
      otherwise it is not found. The same goes for the head. */
  lemma AnswersAreTheInventorys(h: Hash, lib: Library, inv: Inventory, path: string, n: nat, p: string,
                                recursive: bool, lim: int,
                                cursor: string)
    requires UpToDate(lib, inv, path) && Validated(inv) && n in inv.versions && ValidPath(p)
    ensures n in lib[inv.id].versions
    ensures var name, answer := inv.versions[n].name, InventoryAnswer(h, lib, inv, n, p, recursive, lim, cursor);
            && Queries.StateAnswer(h, lib, inv.id, name, p, recursive, lim, cursor) == answer
            && (n == inv.head ==> Queries.StateAnswer(h, lib, inv.id, "", p, recursive, lim, cursor) == answer)
  {
    hide UpToDate, FilesOf, PrefixFree, NumOf, ValidPath, Validated, Queries.AnswerFor;
    ValidatedVersion(inv, n);
    UpToDateVersion(lib, inv, path, n);
  }

  /** What an inventory says about a path of one of its versions, as far as that
      version is known by its name. */
  ghost function InventoryAnswer(h: Hash, lib: Library, inv: Inventory, n: nat, p: string, recursive: bool, lim: int,
                                 cursor: string): Queries.Answer
    requires n in inv.versions
  {
    if inv.id in lib && n in lib[inv.id].versions && lib[inv.id].versions[n].name == inv.versions[n].name
    then Queries.AnswerFor(h, FilesOf(inv.versions[n].state), Elems(p), recursive, Queries.StateLimit(lim), cursor)
    else Queries.NotFound
  }

  /** Asking for the head finds it exactly when its version was first indexed
      under the name that the inventory gives it now. */
  lemma HeadIsFoundByName(lib: Library, inv: Inventory, path: string)
    requires UpToDate(lib, inv, path) && Validated(inv)
    ensures inv.head in lib[inv.id].versions
    ensures Queries.VersionWanted(lib, inv.id, "") ==
            if lib[inv.id].versions[inv.head].name == inv.versions[inv.head].name
            then Some(lib[inv.id].versions[inv.head]) else None
  {
    hide UpToDate, FilesOf, PrefixFree, NumOf, Validated;
    HeadIsThere(inv);
    ValidatedVersion(inv, inv.head);
    UpToDateVersion(lib, inv, path, inv.head);
  }

  // ----- answers over any history -----

  /** What can happen to the library: an inventory is indexed; or the objects
      whose roots are gone are removed, so that only those in `kept` remain; or
      an inventory is refused, which changes nothing. */
  datatype Event = Index(inv: Inventory, path: string) | Remove(kept: set<string>) | Refusal

  ghost predicate Possible(lib: Library, e: Event)
  {
    e.Index? ==> Validated(e.inv) && e.inv.head in e.inv.versions && Acceptable(lib, e.inv, e.path)
  }

  ghost function Happens(lib: Library, e: Event): Library
    requires Possible(lib, e)
  {
    match e
    case Index(inv, path) => lib[inv.id := Indexed(lib, inv, path)]
    case Remove(kept) => map i | i in lib && i in kept :: lib[i]
    case Refusal => lib
  }

  /** The libraries of a history, each made from the one before by an event. */
  ghost predicate IsHistory(libs: seq<Library>, events: seq<Event>)
  {
    && |libs| == |events| + 1
    && forall k :: 0 <= k < |events| ==> Possible(libs[k], events[k]) && libs[k + 1] == Happens(libs[k], events[k])
  }

  ghost predicate Spares(e: Event, i: string)
  {
    e.Remove? ==> i in e.kept
  }

  lemma EventKeepsVersion(lib: Library, e: Event, i: string, n: nat)
    requires Possible(lib, e) && Spares(e, i) && i in lib && n in lib[i].versions
    ensures var lib' := Happens(lib, e); i in lib' && n in lib'[i].versions && lib'[i].versions[n] == lib[i].versions[n]
  {
    hide Acceptable, Validated, Known, InfoOf;
  }

  /** As long as an object is not removed, its versions stay as they were first
      indexed, whatever else is indexed or removed, in whatever order. */
  lemma {:induction false} VersionsStay(libs: seq<Library>, events: seq<Event>, i: string, n: nat, k: nat)
    requires IsHistory(libs, events) && k < |libs| && i in libs[0] && n in libs[0][i].versions
    requires forall e :: e in events ==> Spares(e, i)
    ensures i in libs[k] && n in libs[k][i].versions && libs[k][i].versions[n] == libs[0][i].versions[n]
    decreases k
  {
    hide Possible, Happens;
    if k > 0 {
      VersionsStay(libs, events, i, n, k - 1);
      assert events[k - 1] in events;
      EventKeepsVersion(libs[k - 1], events[k - 1], i, n);
    }
  }

  /** So a version asked for by name is answered the same ever after. */
  lemma AnswersStay(h: Hash, libs: seq<Library>, events: seq<Event>, i: string, v: string, k: nat,
                    p: string, recursive: bool, lim: int, cursor: string)
    requires IsHistory(libs, events) && k < |libs| && (forall e :: e in events ==> Spares(e, i))
    requires v != "" && Queries.VersionWanted(libs[0], i, v).Some?
    ensures Queries.StateAnswer(h, libs[k], i, v, p, recursive, lim, cursor) ==
            Queries.StateAnswer(h, libs[0], i, v, p, recursive, lim, cursor)
  {
    hide IsHistory, Queries.AnswerFor, ValidPath, NumOf;
    HistoryBegins(libs, events);
    VersionsStay(libs, events, i, NumOf(v), k);
  }

  lemma HistoryBegins(libs: seq<Library>, events: seq<Event>)
    requires IsHistory(libs, events)
    ensures |libs| > 0
  {
  }

  lemma LaterHistory(libs: seq<Library>, events: seq<Event>, j: nat)
    requires IsHistory(libs, events) && j < |libs|
    ensures IsHistory(libs[j..], events[j..])
  {
    hide Possible, Happens;
  }

  /** End to end. Once an inventory is indexed, whatever else is indexed, refused
      or removed afterwards, in whatever order, each of its versions is answered
      from the inventory's own state, under the name it was first indexed under,
      for as long as the object is not removed. */
  lemma IndexedThenAnswered(h: Hash, libs: seq<Library>, events: seq<Event>, j: nat, k: nat, n: nat,
                            p: string, recursive: bool, lim: int, cursor: string)
    requires IsHistory(libs, events) && j < |events| && j < k < |libs| && events[j].Index?
    requires forall e :: e in events[j + 1..] ==> Spares(e, events[j].inv.id)
    requires n in events[j].inv.versions && ValidPath(p)
    ensures var inv := events[j].inv;
            Queries.StateAnswer(h, libs[k], inv.id, inv.versions[n].name, p, recursive, lim, cursor) ==
            InventoryAnswer(h, libs[j + 1], inv, n, p, recursive, lim, cursor)
  {
    hide Acceptable, Validated, UpToDate, Queries.StateAnswer, Queries.AnswerFor, FilesOf, Indexed, IsHistory;
    HistoryStep(libs, events, j);
    var inv, path := events[j].inv, events[j].path;
    IndexedIsUpToDate(libs[j], inv, path);
    AnswersAreTheInventorys(h, libs[j + 1], inv, path, n, p, recursive, lim, cursor);
    SameAnswerLater(h, libs, events, j, k, n, p, recursive, lim, cursor);
  }

  lemma HistoryStep(libs: seq<Library>, events: seq<Event>, j: nat)
    requires IsHistory(libs, events) && j < |events|
    ensures |libs| == |events| + 1 && Possible(libs[j], events[j]) && libs[j + 1] == Happens(libs[j], events[j])
  {
    hide Possible, Happens;
  }

  lemma SameAnswerLater(h: Hash, libs: seq<Library>, events: seq<Event>, j: nat, k: nat, n: nat,
                        p: string, recursive: bool, lim: int, cursor: string)
    requires IsHistory(libs, events) && j < |events| && j < k < |libs| && events[j].Index?
    requires forall e :: e in events[j + 1..] ==> Spares(e, events[j].inv.id)
    requires n in events[j].inv.versions && ValidPath(p)
    ensures var inv := events[j].inv;
            Queries.StateAnswer(h, libs[k], inv.id, inv.versions[n].name, p, recursive, lim, cursor) ==
            Queries.StateAnswer(h, libs[j + 1], inv.id, inv.versions[n].name, p, recursive, lim, cursor)
  {
    hide Acceptable, Validated, Queries.AnswerFor, FilesOf, Indexed, IsHistory, NumOf, AllValid, Agrees;
    HistoryStep(libs, events, j);
    var inv := events[j].inv;
    ValidatedVersion(inv, n);
    IndexedHas(libs[j], inv, events[j].path, n);
    LaterHistory(libs, events, j + 1);
    VersionsStay(libs[j + 1..], events[j + 1..], inv.id, n, k - (j + 1));
    assert libs[j + 1..][k - (j + 1)] == libs[k] && libs[j + 1..][0] == libs[j + 1];
  }

  lemma IndexedHas(lib: Library, inv: Inventory, path: string, n: nat)
    requires inv.head in inv.versions && n in inv.versions
    ensures n in Indexed(lib, inv, path).versions
  {
    hide InfoOf, Known;
  }

  // ----- histories of the tables -----

  /** What is asked of the database, each in a transaction of its own. */
  datatype Request = IndexIt(inv: Inventory, path: string, at: int) | RemoveBefore(time: int)

  /** How a request leads from one committed state to the next, and which event it is. */
  ghost predicate Serves(a: Snapshot, r: Request, e: Event, b: Snapshot)
  {
    match r
    case IndexIt(inv, path, at) =>
      if Acceptable(a.lib, inv, path) then e == Index(inv, path) && b.roots == WithRoot(a.roots, path, at)
      else e == Refusal && b == a
    case RemoveBefore(time) =>
      b.roots == RootsSince(a.roots, time) && e == Remove(set i | i in a.lib && a.lib[i].root in b.roots)
  }

  ghost function LibsOf(states: seq<Snapshot>): (r: seq<Library>)
    ensures |r| == |states| && forall k :: 0 <= k < |r| ==> r[k] == states[k].lib
  {
    seq(|states|, k requires 0 <= k < |states| => states[k].lib)
  }

  /** The committed states served by the requests so far make a history. */
  ghost predicate Served(states: seq<Snapshot>, requests: seq<Request>, events: seq<Event>)
  {
    && |states| == |events| + 1 && |events| <= |requests|
    && IsHistory(LibsOf(states), events)
    && forall k :: 0 <= k < |events| ==> Serves(states[k], requests[k], events[k], states[k + 1])
  }

  lemma ServedMore(states: seq<Snapshot>, requests: seq<Request>, events: seq<Event>, e: Event, b: Snapshot)
    requires Served(states, requests, events) && |events| < |requests|
    requires var a := states[|events|];
             Possible(a.lib, e) && b.lib == Happens(a.lib, e) && Serves(a, requests[|events|], e, b)
    ensures Served(states + [b], requests, events + [e])
  {
    hide Possible, Happens, Serves;
    var libs, libs', events' := LibsOf(states), LibsOf(states + [b]), events + [e];
    forall k | 0 <= k < |events'|
      ensures Possible(libs'[k], events'[k]) && libs'[k + 1] == Happens(libs'[k], events'[k])
    {
      if k < |events| {
        assert libs'[k] == libs[k] && libs'[k + 1] == libs[k + 1];
      }
    }
  }

  /** Serves requests one after another. The committed states are a history, in
      which every acceptable inventory is indexed and every other one refused. */
  method Serve(db: Database, h: Hash, requests: seq<Request>, ghost told: iset<Tree>)
      returns (ghost states: seq<Snapshot>, ghost events: seq<Event>)
    requires KeysTell(h, told) && Stocked(db.committed.den, told) && db.committed.Valid(h)
    requires forall r :: r in requests && r.IndexIt? ==> Validated(r.inv) && StatesIn(r.inv, told)
    modifies db
    ensures db.committed.Valid(h) && Stocked(db.committed.den, told) && |events| == |requests|
    ensures Served(states, requests, events)
    ensures states[0] == old(Snapshot(db.committed.roots, db.committed.lib))
    ensures states[|requests|] == Snapshot(db.committed.roots, db.committed.lib)
  {
    hide *;
    states, events := [Snapshot(db.committed.roots, db.committed.lib)], [];
    NothingServed(states[0], requests);
    for k := 0 to |requests|
      invariant db.committed.Valid(h) && Stocked(db.committed.den, told) && |states| == k + 1 && |events| == k
      invariant Served(states, requests, events)
      invariant states[0] == old(Snapshot(db.committed.roots, db.committed.lib))
      invariant states[k] == Snapshot(db.committed.roots, db.committed.lib)
    {
      assert requests[k] in requests;
      ghost var e := ServeOne(db, h, requests[k], told);
      ghost var b := Snapshot(db.committed.roots, db.committed.lib);
      ServedMore(states, requests, events, e, b);
      states, events := states + [b], events + [e];
    }
  }

  lemma NothingServed(a: Snapshot, requests: seq<Request>)
    ensures Served([a], requests, [])
  {
  }

  /** One request in one transaction, which is rolled back if an inventory is refused. */
  method ServeOne(db: Database, h: Hash, r: Request, ghost told: iset<Tree>) returns (ghost e: Event)
    requires KeysTell(h, told) && Stocked(db.committed.den, told) && db.committed.Valid(h)
    requires r.IndexIt? ==> Validated(r.inv) && StatesIn(r.inv, told)
    modifies db
    ensures db.committed.Valid(h) && Stocked(db.committed.den, told) && Possible(old(db.committed.lib), e)
    ensures db.committed.lib == Happens(old(db.committed.lib), e)
    ensures Serves(old(Snapshot(db.committed.roots, db.committed.lib)), r, e,
              Snapshot(db.committed.roots, db.committed.lib))
  {
    hide *;
    ghost var a := Snapshot(db.committed.roots, db.committed.lib);
    var tx := db.NewTx();
    tx.SameIsValid(db.committed, h);
    SameParts(tx, db.committed);
    ServesIs(a, r);
    match r {
      case IndexIt(inv, path, at) =>
        var status := tx.IndexObjectInventory(h, path, at, inv, told);
        if status.Fine? {
          db.Commit(tx);
          e := Index(inv, path);
        } else {
          e := Refusal;
        }
      case RemoveBefore(time) =>
        tx.RemoveObjectsBefore(time, h);
        e := Remove(set i | i in a.lib && a.lib[i].root in tx.roots);
        RemovalIs(a.lib, tx.roots);
        db.Commit(tx);
    }
  }

  /** What the requests and events mean, one by one. */
  lemma ServesIs(a: Snapshot, r: Request)
    ensures r.IndexIt? && Acceptable(a.lib, r.inv, r.path) && Validated(r.inv) && r.inv.head in r.inv.versions ==>
              && Possible(a.lib, Index(r.inv, r.path))
              && Happens(a.lib, Index(r.inv, r.path)) == a.lib[r.inv.id := Indexed(a.lib, r.inv, r.path)]
              && forall b: Snapshot :: b.roots == WithRoot(a.roots, r.path, r.at) ==>
                  Serves(a, r, Index(r.inv, r.path), b)
    ensures Possible(a.lib, Refusal) && Happens(a.lib, Refusal) == a.lib
    ensures r.IndexIt? && !Acceptable(a.lib, r.inv, r.path) ==> Serves(a, r, Refusal, a)
    ensures r.RemoveBefore? ==>
              forall b: Snapshot :: b.roots == RootsSince(a.roots, r.time) ==>
                Serves(a, r, Remove(set i | i in a.lib && a.lib[i].root in b.roots), b)
  {
    hide Acceptable, Validated, Indexed, WithRoot;
  }

  lemma RemovalIs(lib: Library, roots: Roots)
    ensures var e := Remove(set i | i in lib && lib[i].root in roots);
            Possible(lib, e) && Happens(lib, e) == LibraryOf(lib, roots)
  {
  }
}
