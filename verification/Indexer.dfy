/** A whole indexing run: listing the roots, parsing their inventories and
    indexing the results in one transaction that is committed in batches, under
    every interleaving of listing, parsing and delivery of results. */
module Indexer {
  import opened Trees
  import opened Ordering
  import opened Digests
  import opened Merkle
  import opened Objects
  import opened Paging
  import opened Tables
  import opened Sweep
  import Listings

  /** What validating the inventory at a root gives: nothing if it is invalid. */
  type Catalog = string -> Option<Inventory>

  /** A parsed inventory with the digest indexed at its root when it was parsed. */
  datatype Job = Invalid | Parsed(prev: Option<string>, inv: Inventory)

  const INVENTORIES_PER_COMMIT := 10

  // ----- which results are indexed -----

  /** Whether a result brings an inventory to index: a valid one, which is not
      known by its digest at the root it was found at. */
  predicate Renews(job: Job)
  {
    job.Parsed? && (job.inv.digest == "" || job.prev != Some(job.inv.digest))
  }

  /** How many of the results do. */
  function Renewals(results: seq<Job>): nat
  {
    if results == [] then 0
    else Renewals(results[..|results| - 1]) + if Renews(results[|results| - 1]) then 1 else 0
  }

  lemma RenewsIs(job: Job)
    ensures Renews(job) <==> job.Parsed? && (job.inv.digest == "" || job.prev != Some(job.inv.digest))
  {
  }

  lemma RenewalsMore(results: seq<Job>, job: Job)
    ensures Renewals(results + [job]) == Renewals(results) + if Renews(job) then 1 else 0
    ensures forall k :: 0 <= k <= |results| ==> (results + [job])[..k] == results[..k]
  {
    assert (results + [job])[..|results|] == results;
  }

  lemma {:induction false} RenewalsSplit(results: seq<Job>, k: nat)
    requires k <= |results|
    ensures Renewals(results) == Renewals(results[..k]) + Renewals(results[k..])
    decreases |results|
  {
    if k == |results| {
      assert results[..k] == results && results[k..] == [];
    } else {
      var last := |results| - 1;
      RenewalsSplit(results[..last], k);
      assert results[..last][..k] == results[..k] && results[k..][..last - k] == results[..last][k..];
    }
  }

  /** The result for the root is one of those indexed. */
  ghost predicate IndexedAmong(p: string, done: seq<string>, results: seq<Job>)
    requires |done| == |results|
  {
    exists k :: 0 <= k < |done| && done[k] == p && Renews(results[k])
  }

  /** The times of roots are as they were, but for those whose inventories are indexed. */
  ghost predicate OnlyRenewed(before: Roots, roots: Roots, done: seq<string>, results: seq<Job>)
  {
    && |done| == |results|
    && forall p :: p in before && p in roots && !IndexedAmong(p, done, results) ==> roots[p] == before[p]
  }

  lemma NoneRenewed(roots: Roots)
    ensures OnlyRenewed(roots, roots, [], [])
  {
  }

  lemma RenewedStays(before: Roots, roots: Roots, done: seq<string>, results: seq<Job>, p: string, job: Job)
    requires OnlyRenewed(before, roots, done, results)
    ensures OnlyRenewed(before, roots, done + [p], results + [job])
  {
    forall q | IndexedAmong(q, done, results) ensures IndexedAmong(q, done + [p], results + [job]) {
      var k :| 0 <= k < |done| && done[k] == q && Renews(results[k]);
      assert (done + [p])[k] == q && (results + [job])[k] == results[k];
    }
  }

  lemma OneRenewed(before: Roots, roots: Roots, done: seq<string>, results: seq<Job>, p: string, job: Job, at: int)
    requires OnlyRenewed(before, roots, done, results) && Renews(job) && p in roots
    ensures OnlyRenewed(before, WithRoot(roots, p, at), done + [p], results + [job])
  {
    RenewedStays(before, roots, done, results, p, job);
    assert (done + [p])[|done|] == p && (results + [job])[|done|] == job;
    hide Renews;
    assert IndexedAmong(p, done + [p], results + [job]);
  }

  // ----- the effect of a run -----

  /** The library once the inventory at a root is indexed. */
  ghost function Entered(lib: Library, catalog: Catalog, p: string): Library
  {
    match catalog(p)
    case None => lib
    case Some(inv) => if inv.head in inv.versions then lib[inv.id := Indexed(lib, inv, p)] else lib
  }

  /** The library once the inventories at the given roots are, one after another. */
  ghost function Effect(lib: Library, catalog: Catalog, done: seq<string>): Library
  {
    if done == [] then lib else Entered(Effect(lib, catalog, done[..|done| - 1]), catalog, done[|done| - 1])
  }

  lemma EffectMore(lib: Library, catalog: Catalog, done: seq<string>, p: string)
    ensures Effect(lib, catalog, done + [p]) == Entered(Effect(lib, catalog, done), catalog, p)
    ensures (done + [p])[..|done| + 1] == done + [p]
    ensures forall k :: 0 <= k <= |done| ==> (done + [p])[..k] == done[..k]
  {
    assert (done + [p])[..|done|] == done;
  }

  /** Indexing what other roots hold leaves the object at `p` alone, unless it moves
      the object to one of them, and brings none to `p`. */
  lemma {:induction false} OthersLeave(lib: Library, catalog: Catalog, keys: set<string>, done: seq<string>, p: string)
    requires (forall q :: q in done ==> q in keys) && p !in done
    ensures var r := Effect(lib, catalog, done);
            && (forall i :: i in r && r[i].root == p ==> i in lib && r[i] == lib[i])
            && (forall i :: i in lib && lib[i].root == p ==>
                  (i in r && r[i] == lib[i]) || MovedAway(catalog, keys, p, i))
    decreases |done|
  {
    hide Indexed, MovedAway;
    if done != [] {
      var last := |done| - 1;
      var q := done[last];
      assert q in done && q != p;
      OthersLeave(lib, catalog, keys, done[..last], p);
      var before := Effect(lib, catalog, done[..last]);
      if catalog(q).Some? && catalog(q).value.head in catalog(q).value.versions {
        IndexedRoot(before, catalog(q).value, q);
        MovedTo(catalog, keys, p, q);
      }
    }
  }

  lemma MovedTo(catalog: Catalog, keys: set<string>, p: string, q: string)
    requires q in keys && q != p && catalog(q).Some?
    ensures MovedAway(catalog, keys, p, catalog(q).value.id)
  {
  }

  /** What parsing at `p` found, seen from the library at the start of the run: an
      invalid inventory, or the one that is there, with the digest of the object that
      was at `p`, unless that object belongs to another root by now. */
  ghost predicate JobRead(lib: Library, catalog: Catalog, keys: set<string>, p: string, job: Job)
  {
    match job
    case Invalid => catalog(p).None?
    case Parsed(prev, inv) =>
      && catalog(p) == Some(inv)
      && (prev.Some? ==> exists i :: i in lib && lib[i].root == p && lib[i].digest == prev.value)
      && (forall i :: i in lib && lib[i].root == p ==>
            prev == Some(lib[i].digest) || MovedAway(catalog, keys, p, i))
  }

  /** What is indexed at `p` when its inventory is parsed. */
  ghost predicate FoundAt(lib: Library, catalog: Catalog, p: string, job: Job)
  {
    match job
    case Invalid => catalog(p).None?
    case Parsed(prev, inv) =>
      && catalog(p) == Some(inv)
      && (forall i :: i in lib && lib[i].root == p ==> prev == Some(lib[i].digest))
      && ((forall i :: i in lib ==> lib[i].root != p) ==> prev == None)
  }

  lemma FoundIsRead(lib: Library, catalog: Catalog, keys: set<string>, done: seq<string>, p: string, job: Job)
    requires (forall q :: q in done ==> q in keys) && p !in done
    requires FoundAt(Effect(lib, catalog, done), catalog, p, job)
    ensures JobRead(lib, catalog, keys, p, job)
  {
    hide Effect, MovedAway;
    OthersLeave(lib, catalog, keys, done, p);
    var r := Effect(lib, catalog, done);
    if job.Parsed? && job.prev.Some? {
      var i :| i in r && r[i].root == p;
      assert i in lib && lib[i] == r[i];
    }
  }

  ghost predicate JobsRead(lib: Library, catalog: Catalog, keys: set<string>, jobs: map<string, Job>)
  {
    forall p :: p in jobs ==> JobRead(lib, catalog, keys, p, jobs[p])
  }

  /** Each result is what parsing found at its root. */
  ghost predicate ResultsRead(lib: Library, catalog: Catalog, keys: set<string>, done: seq<string>, results: seq<Job>)
  {
    && |results| == |done|
    && forall k :: 0 <= k < |done| ==> done[k] in keys && JobRead(lib, catalog, keys, done[k], results[k])
  }

  lemma NothingRead(lib: Library, catalog: Catalog, keys: set<string>)
    ensures JobsRead(lib, catalog, keys, map[]) && ResultsRead(lib, catalog, keys, [], []) && Renewals([]) == 0
  {
  }

  lemma MoreRead(lib: Library, catalog: Catalog, keys: set<string>, jobs: map<string, Job>, p: string, job: Job)
    requires JobsRead(lib, catalog, keys, jobs) && JobRead(lib, catalog, keys, p, job)
    ensures JobsRead(lib, catalog, keys, jobs[p := job])
  {
    hide JobRead;
  }

  lemma ResultOfJob(lib: Library, catalog: Catalog, keys: set<string>, jobs: map<string, Job>, p: string,
                    done: seq<string>, results: seq<Job>)
    requires JobsRead(lib, catalog, keys, jobs) && p in jobs && ResultsRead(lib, catalog, keys, done, results)
    requires p in keys
    ensures JobsRead(lib, catalog, keys, jobs - {p})
    ensures ResultsRead(lib, catalog, keys, done + [p], results + [jobs[p]])
  {
    hide JobRead;
  }

  /** Every valid inventory is indexed as it is, and has a digest to know it by. */
  ghost predicate Unchanged(lib: Library, catalog: Catalog, keys: set<string>)
  {
    forall p :: p in keys && catalog(p).Some? ==>
        UpToDate(lib, catalog(p).value, p) && catalog(p).value.digest != ""
  }

  /** A run over roots that have not changed indexes nothing. */
  lemma {:induction false} NothingToIndex(lib: Library, catalog: Catalog, keys: set<string>, done: seq<string>,
                                          results: seq<Job>)
    requires Unchanged(lib, catalog, keys) && DistinctIds(catalog, keys)
    requires ResultsRead(lib, catalog, keys, done, results)
    ensures Effect(lib, catalog, done) == lib && Renewals(results) == 0
    decreases |done|
  {
    hide UpToDate, Indexed;
    if done != [] {
      var last := |done| - 1;
      NothingToIndex(lib, catalog, keys, done[..last], results[..last]);
      NotRenewed(lib, catalog, keys, done[last], results[last]);
    }
  }

  lemma NotRenewed(lib: Library, catalog: Catalog, keys: set<string>, p: string, job: Job)
    requires Unchanged(lib, catalog, keys) && DistinctIds(catalog, keys)
    requires p in keys && JobRead(lib, catalog, keys, p, job)
    ensures !Renews(job) && Entered(lib, catalog, p) == lib
  {
    hide VersionAcceptable, Merged, Known, InfoOf;
    if job.Parsed? {
      IndexedRoot(lib, job.inv, p);
      assert UpToDate(lib, job.inv, p);
      assert !MovedAway(catalog, keys, p, job.inv.id);
    }
  }

  // ----- what commits leave -----

  /** Whole inventories only: the effect of some of the results, from the first on. */
  ghost predicate CommitShown(c: Snapshot, lib: Library, catalog: Catalog, keys: set<string>, done: seq<string>)
  {
    c.roots.Keys == keys && exists k :: 0 <= k <= |done| && c.lib == Effect(lib, catalog, done[..k])
  }

  /** The commits made after the earlier ones all leave that. */
  ghost predicate CommitsShown(commits: seq<Snapshot>, earlier: seq<Snapshot>, lib: Library, catalog: Catalog,
                               keys: set<string>, done: seq<string>)
  {
    && |earlier| <= |commits| && commits[..|earlier|] == earlier
    && forall j :: |earlier| <= j < |commits| ==> CommitShown(commits[j], lib, catalog, keys, done)
  }

  lemma NoCommitsYet(commits: seq<Snapshot>, lib: Library, catalog: Catalog, keys: set<string>)
    ensures CommitsShown(commits, commits, lib, catalog, keys, [])
  {
  }

  lemma CommitsStayShown(commits: seq<Snapshot>, earlier: seq<Snapshot>, lib: Library, catalog: Catalog,
                         keys: set<string>,
                         done: seq<string>, p: string)
    requires CommitsShown(commits, earlier, lib, catalog, keys, done)
    ensures CommitsShown(commits, earlier, lib, catalog, keys, done + [p])
  {
    hide Effect;
    forall j | |earlier| <= j < |commits| ensures CommitShown(commits[j], lib, catalog, keys, done + [p]) {
      var k :| 0 <= k <= |done| && commits[j].lib == Effect(lib, catalog, done[..k]);
      assert (done + [p])[..k] == done[..k];
    }
  }

  lemma OneMoreShown(commits: seq<Snapshot>, earlier: seq<Snapshot>, lib: Library, catalog: Catalog, keys: set<string>,
                     done: seq<string>, c: Snapshot)
    requires CommitsShown(commits, earlier, lib, catalog, keys, done)
    requires c.roots.Keys == keys && c.lib == Effect(lib, catalog, done)
    ensures CommitsShown(commits + [c], earlier, lib, catalog, keys, done)
  {
    hide Effect;
    assert done[..|done|] == done;
    assert CommitShown(c, lib, catalog, keys, done);
    assert (commits + [c])[..|earlier|] == commits[..|earlier|];
  }

  // ----- what a run relies on -----

  /** Inventories with the same digest are the same. */
  ghost predicate DigestsIdentify(known: Inventory -> bool)
  {
    forall a, b :: known(a) && known(b) && a.digest == b.digest ==> a == b
  }

  /** No two roots hold inventories with the same object id. */
  ghost predicate DistinctIds(catalog: Catalog, keys: set<string>)
  {
    forall p, q ::
      p in keys && q in keys && catalog(p).Some? && catalog(q).Some? && catalog(p).value.id == catalog(q).value.id ==>
        p == q
  }

  ghost predicate Lawful(catalog: Catalog, keys: set<string>, known: Inventory -> bool)
  {
    && DigestsIdentify(known) && DistinctIds(catalog, keys)
    && forall p :: p in keys && catalog(p).Some? ==> Validated(catalog(p).value) && known(catalog(p).value)
  }

  /** Keys tell the trees among `told` apart, and all states to be indexed are made of such. */
  ghost predicate Telling(h: Hash, told: iset<Tree>, catalog: Catalog, keys: set<string>)
  {
    KeysTell(h, told) && forall p :: p in keys && catalog(p).Some? ==> StatesIn(catalog(p).value, told)
  }

  lemma TellingThere(h: Hash, told: iset<Tree>, catalog: Catalog, keys: set<string>, p: string)
    requires Telling(h, told, catalog, keys) && p in keys && catalog(p).Some?
    ensures KeysTell(h, told) && StatesIn(catalog(p).value, told)
  {
    hide KeysTell, StatesIn;
  }

  /** So it is, for any inventories without newlines, if the hash is free of collisions. */
  lemma PlainIsTelling(h: Hash, catalog: Catalog, keys: set<string>, known: Inventory -> bool)
    requires CollisionFree(h) && Lawful(catalog, keys, known)
    requires forall p :: p in keys && catalog(p).Some? ==> NoNewlines(catalog(p).value)
    ensures Telling(h, PlainTrees(), catalog, keys)
  {
    hide Validated, NoNewlines, KeysTell, StatesIn;
    PlainTreesAreTold(h);
    forall p | p in keys && catalog(p).Some? ensures StatesIn(catalog(p).value, PlainTrees()) {
      PlainStatesIn(h, catalog(p).value);
    }
  }

  ghost predicate SourceOf(lib: Library, known: Inventory -> bool, i: string, inv: Inventory)
  {
    known(inv) && inv.id == i && i in lib && UpToDate(lib, inv, lib[i].root)
  }

  /** Every indexed object is as its last inventory describes it. */
  ghost predicate Sourced(lib: Library, known: Inventory -> bool)
  {
    forall i :: i in lib ==> exists inv :: SourceOf(lib, known, i, inv)
  }

  lemma EnteredIsSourced(lib: Library, known: Inventory -> bool, inv: Inventory, path: string)
    requires Sourced(lib, known) && known(inv) && inv.head in inv.versions && Acceptable(lib, inv, path)
    ensures Sourced(lib[inv.id := Indexed(lib, inv, path)], known)
  {
    hide UpToDate, VersionAcceptable, Progress;
    var lib' := lib[inv.id := Indexed(lib, inv, path)];
    IndexedIsUpToDate(lib, inv, path);
    IndexedRoot(lib, inv, path);
    forall i | i in lib' ensures exists s :: SourceOf(lib', known, i, s) {
      if i == inv.id {
        assert SourceOf(lib', known, i, inv);
      } else {
        var s :| SourceOf(lib, known, i, s);
        AloneAtRoot(lib, s, lib[i].root);
        OthersKeepUpToDate(lib, s, lib[i].root, lib');
        assert SourceOf(lib', known, i, s);
      }
    }
  }

  lemma IndexedRoot(lib: Library, inv: Inventory, path: string)
    requires inv.head in inv.versions
    ensures var o := Indexed(lib, inv, path);
            o.root == path && o.digest == inv.digest && o.head == inv.versions[inv.head].name
  {
  }

  lemma AloneAtRoot(lib: Library, inv: Inventory, path: string)
    requires UpToDate(lib, inv, path)
    ensures inv.id in lib && lib[inv.id].root == path && lib[inv.id].digest == inv.digest
    ensures forall j :: j in lib && j != inv.id ==> lib[j].root != path
  {
    hide VersionAcceptable, Merged, Known, InfoOf;
  }

  lemma FewerAreSourced(lib: Library, known: Inventory -> bool, roots: Roots)
    requires Sourced(lib, known)
    ensures Sourced(LibraryOf(lib, roots), known)
  {
    hide UpToDate;
    var lib' := LibraryOf(lib, roots);
    forall i | i in lib' ensures exists s :: SourceOf(lib', known, i, s) {
      var s :| SourceOf(lib, known, i, s);
      AloneAtRoot(lib, s, lib[i].root);
      OthersKeepUpToDate(lib, s, lib[i].root, lib');
      assert SourceOf(lib', known, i, s);
    }
  }

  // ----- why skipping is right -----

  /** What a digest read at a root tells later on: the inventory it belongs to
      still describes the object there, or that object has moved to a root of
      its own. */
  ghost predicate JobSource(lib: Library, catalog: Catalog, keys: set<string>, known: Inventory -> bool, p: string,
                            digest: string,
                            inv: Inventory)
  {
    known(inv) && inv.digest == digest && (UpToDate(lib, inv, p) || MovedAway(catalog, keys, p, inv.id))
  }

  ghost predicate MovedAway(catalog: Catalog, keys: set<string>, p: string, id: string)
  {
    exists q :: q in keys && q != p && catalog(q).Some? && catalog(q).value.id == id
  }

  ghost predicate JobTrue(lib: Library, catalog: Catalog, keys: set<string>, known: Inventory -> bool, p: string,
                          prev: Option<string>)
  {
    prev.Some? ==> exists inv :: JobSource(lib, catalog, keys, known, p, prev.value, inv)
  }

  lemma ParsedTrue(lib: Library, catalog: Catalog, keys: set<string>, known: Inventory -> bool, p: string,
                   prev: Option<string>)
    requires Sourced(lib, known)
    requires forall i :: i in lib && lib[i].root == p ==> prev == Some(lib[i].digest)
    requires (forall i :: i in lib ==> lib[i].root != p) ==> prev == None
    ensures JobTrue(lib, catalog, keys, known, p, prev)
  {
    hide UpToDate, MovedAway;
    if prev.Some? {
      var i :| i in lib && lib[i].root == p;
      var s :| SourceOf(lib, known, i, s);
      AloneAtRoot(lib, s, p);
      assert JobSource(lib, catalog, keys, known, p, prev.value, s);
    }
  }

  lemma JobStaysTrue(lib: Library, catalog: Catalog, keys: set<string>, known: Inventory -> bool, p: string,
                     prev: Option<string>,
                     q: string, inv: Inventory)
    requires JobTrue(lib, catalog, keys, known, p, prev)
    requires q in keys && q != p && catalog(q) == Some(inv) && inv.head in inv.versions && Acceptable(lib, inv, q)
    ensures JobTrue(lib[inv.id := Indexed(lib, inv, q)], catalog, keys, known, p, prev)
  {
    hide UpToDate, Progress, VersionAcceptable;
    if prev.Some? {
      var lib' := lib[inv.id := Indexed(lib, inv, q)];
      var s :| JobSource(lib, catalog, keys, known, p, prev.value, s);
      if s.id == inv.id {
        assert MovedAway(catalog, keys, p, s.id);
      } else if UpToDate(lib, s, p) {
        AloneAtRoot(lib, s, p);
        IndexedRoot(lib, inv, q);
        OthersKeepUpToDate(lib, s, p, lib');
      }
      assert JobSource(lib', catalog, keys, known, p, prev.value, s);
    }
  }

  /** When the digest read is that of the inventory parsed, indexing it again
      would change nothing. */
  lemma SkipIsRight(lib: Library, catalog: Catalog, keys: set<string>, known: Inventory -> bool, p: string,
                    inv: Inventory)
    requires Lawful(catalog, keys, known) && p in keys && catalog(p) == Some(inv)
    requires JobTrue(lib, catalog, keys, known, p, Some(inv.digest))
    ensures UpToDate(lib, inv, p) && Acceptable(lib, inv, p) && Entered(lib, catalog, p) == lib
  {
    hide Indexed, Validated, VersionAcceptable;
    var s :| JobSource(lib, catalog, keys, known, p, inv.digest, s);
    assert s == inv;
  }

  // ----- a run -----

  /** Each root listed is in one place: waiting to be parsed, parsed, or done. */
  ghost predicate InPlace(keys: set<string>, listed: seq<string>, toList: seq<string>, waiting: set<string>,
                          parsed: set<string>,
                          done: seq<string>)
  {
    && listed + toList == After(keys, "")
    && (forall p :: p in listed <==> p in waiting || p in parsed || p in done)
    && waiting !! parsed
    && (forall p :: p in done ==> p !in waiting && p !in parsed)
    && forall i, j :: 0 <= i < j < |done| ==> done[i] != done[j]
  }

  lemma OnceListed(keys: set<string>, listed: seq<string>, toList: seq<string>)
    requires listed + toList == After(keys, "")
    ensures forall p :: p in listed || p in toList ==> p in keys
    ensures forall p :: p in toList ==> p !in listed
  {
    var all := After(keys, "");
    forall p | p in listed || p in toList ensures p in keys {
      assert p in listed + toList;
    }
    forall p | p in toList ensures p !in listed {
      var j :| 0 <= j < |toList| && toList[j] == p;
      assert all[|listed| + j] == p;
      forall i | 0 <= i < |listed| ensures listed[i] != p {
        assert all[i] == listed[i];
        LessIsStrict(all[i], p);
      }
    }
  }

  lemma MoreListed(keys: set<string>, listed: seq<string>, items: seq<string>, rest: seq<string>, waiting: set<string>,
                   parsed: set<string>, done: seq<string>)
    requires InPlace(keys, listed, items + rest, waiting, parsed, done)
    ensures InPlace(keys, listed + items, rest, waiting + (set p | p in items), parsed, done)
  {
    hide After;
    OnceListed(keys, listed, items + rest);
    assert forall p :: p in items ==> p in items + rest;
    assert listed + (items + rest) == (listed + items) + rest;
  }

  lemma OneParsed(keys: set<string>, listed: seq<string>, toList: seq<string>, waiting: set<string>,
                  parsed: set<string>,
                  done: seq<string>, p: string)
    requires InPlace(keys, listed, toList, waiting, parsed, done) && p in waiting
    ensures p in keys && p !in parsed && p !in done && forall q :: q in done ==> q in keys
    ensures InPlace(keys, listed, toList, waiting - {p}, parsed + {p}, done)
  {
    hide After;
    OnceListed(keys, listed, toList);
    assert p in listed;
  }

  lemma OneDone(keys: set<string>, listed: seq<string>, toList: seq<string>, waiting: set<string>, parsed: set<string>,
                done: seq<string>, p: string)
    requires InPlace(keys, listed, toList, waiting, parsed, done) && p in parsed
    ensures p in keys && p !in done
    ensures InPlace(keys, listed, toList, waiting, parsed - {p}, done + [p])
  {
    hide After;
    OnceListed(keys, listed, toList);
    assert p in listed;
  }

  lemma AllDone(keys: set<string>, listed: seq<string>, done: seq<string>)
    requires InPlace(keys, listed, [], {}, {}, done) && "" !in keys
    ensures forall p :: p in done <==> p in keys
    ensures forall i, j :: 0 <= i < j < |done| ==> done[i] != done[j]
  {
    hide After;
    AfterStart(keys);
    assert listed + [] == listed;
  }

  /** The jobs are true to the catalog and to the library. */
  ghost predicate JobsTrue(lib: Library, catalog: Catalog, keys: set<string>, known: Inventory -> bool,
                           jobs: map<string, Job>)
  {
    forall p :: p in jobs ==> JobIsTrue(lib, catalog, keys, known, p, jobs[p])
  }

  ghost predicate JobIsTrue(lib: Library, catalog: Catalog, keys: set<string>, known: Inventory -> bool, p: string,
                            job: Job)
  {
    match job
    case Invalid => catalog(p) == None
    case Parsed(prev, inv) => catalog(p) == Some(inv) && JobTrue(lib, catalog, keys, known, p, prev)
  }

  lemma JobsStayTrue(lib: Library, catalog: Catalog, keys: set<string>, known: Inventory -> bool,
                     jobs: map<string, Job>,
                     q: string, inv: Inventory)
    requires JobsTrue(lib, catalog, keys, known, jobs) && q !in jobs
    requires q in keys && catalog(q) == Some(inv) && inv.head in inv.versions && Acceptable(lib, inv, q)
    ensures JobsTrue(lib[inv.id := Indexed(lib, inv, q)], catalog, keys, known, jobs)
  {
    hide JobTrue, Indexed, Acceptable;
    var lib' := lib[inv.id := Indexed(lib, inv, q)];
    forall p | p in jobs ensures JobIsTrue(lib', catalog, keys, known, p, jobs[p]) {
      assert JobIsTrue(lib, catalog, keys, known, p, jobs[p]);
      if jobs[p].Parsed? {
        JobStaysTrue(lib, catalog, keys, known, p, jobs[p].prev, q, inv);
      }
    }
  }

  class Indexing {
    const db: Database
    const catalog: Catalog
    const h: Hash
    var tx: Tx
    var cursor: string
    var listing: bool
    var waiting: set<string>
    var jobs: map<string, Job>
    var numObjs: nat
    var stopped: bool
    ghost const keys: set<string>
    ghost const lib0: Library
    ghost const roots0: Roots
    ghost const known: Inventory -> bool
    ghost const told: iset<Tree>
    ghost const earlier: seq<Snapshot>
    ghost var listed: seq<string>
    /** The roots whose results are dealt with, in order. */
    ghost var done: seq<string>
    /** What these results are. */
    ghost var results: seq<Job>
    /** How many of them the database shows. */
    ghost var kept: nat

    ghost predicate Valid()
      reads this, db, db.committed, tx
    {
      Sound() && Taken() && Batched()
    }

    /** The jobs and results are what parsing found, and those indexed are counted. */
    ghost predicate Taken()
      reads this`jobs, this`done, this`results, this`numObjs, this`stopped, this`tx, tx`roots
    {
      && JobsRead(lib0, catalog, keys, jobs) && ResultsRead(lib0, catalog, keys, done, results)
      && (!stopped ==> numObjs == Renewals(results) && OnlyRenewed(roots0, tx.roots, done, results))
    }

    /** The database shows a multiple of ten inventories indexed in this run, and
        fewer than ten have been indexed since. */
    ghost predicate Batched()
      reads this`done, this`results, this`kept, db, db.committed
    {
      && kept <= |done| == |results| && Renewals(results[..kept]) % 10 == 0
      && Renewals(results) < Renewals(results[..kept]) + 10
      && OnlyRenewed(roots0, db.committed.roots, done[..kept], results[..kept])
    }

    lemma ValidIs()
      ensures Valid() <==> Sound() && Taken() && Batched()
    {
      hide Sound, Taken, Batched;
    }

    lemma TakenIs()
      ensures Taken() <==>
              && JobsRead(lib0, catalog, keys, jobs) && ResultsRead(lib0, catalog, keys, done, results)
              && (!stopped ==> numObjs == Renewals(results) && OnlyRenewed(roots0, tx.roots, done, results))
      ensures Taken() ==> |results| == |done|
    {
      hide JobRead, Renewals, OnlyRenewed;
    }

    lemma BatchedIs()
      ensures Batched() <==>
              && kept <= |done| == |results| && Renewals(results[..kept]) % 10 == 0
              && Renewals(results) < Renewals(results[..kept]) + 10
              && OnlyRenewed(roots0, db.committed.roots, done[..kept], results[..kept])
    {
      hide Renewals, OnlyRenewed;
    }

    ghost predicate Sound()
      reads this, db, db.committed, tx
    {
      && Telling(h, told, catalog, keys) && Lawful(catalog, keys, known)
      && Committed()
      && (!stopped ==> Pending() && InPlace(keys, listed, ToList(), waiting, jobs.Keys, done))
    }

    ghost function ToList(): seq<string>
      reads this`listing, this`cursor
    {
      if listing then After(keys, cursor) else []
    }

    /** How much is left to do, at most. */
    ghost function Left(): nat
      reads this`listing, this`cursor, this`waiting, this`jobs
    {
      3 * |ToList()| + (if listing then 1 else 0) + 2 * |waiting| + |jobs.Keys|
    }

    lemma LeftIs()
      ensures Left() == 3 * |ToList()| + (if listing then 1 else 0) + 2 * |waiting| + |jobs.Keys|
      ensures ToList() == if listing then After(keys, cursor) else []
    {
      hide After;
    }

    /** The database shows the effect of the first `kept` results: whole inventories
        only. So has every commit of the run. */
    ghost predicate Committed()
      reads this`done, this`kept, db, db.committed
    {
      && db.committed.Valid(h) && db.committed.roots.Keys == keys && Stocked(db.committed.den, told)
      && kept <= |done| && db.committed.lib == Effect(lib0, catalog, done[..kept])
      && Sourced(db.committed.lib, known) && CommitsShown(db.commits, earlier, lib0, catalog, keys, done)
    }

    /** The open transaction shows the effect of all results so far. */
    ghost predicate Pending()
      reads this`tx, this`done, this`jobs, db, tx
    {
      && tx != db.committed && tx.Valid(h) && tx.roots.Keys == keys && Stocked(tx.den, told)
      && tx.lib == Effect(lib0, catalog, done)
      && Sourced(tx.lib, known) && JobsTrue(tx.lib, catalog, keys, known, jobs)
    }

    constructor (db: Database, catalog: Catalog, h: Hash, ghost known: Inventory -> bool, ghost told: iset<Tree>)
      requires Telling(h, told, catalog, db.committed.roots.Keys) && db.committed.Valid(h)
      requires Stocked(db.committed.den, told)
      requires Lawful(catalog, db.committed.roots.Keys, known) && Sourced(db.committed.lib, known)
      ensures Valid() && !stopped && done == [] && kept == 0 && fresh(tx)
      ensures listing && cursor == "" && waiting == {} && jobs == map[]
      ensures this.db == db && this.catalog == catalog && this.h == h && this.known == known && this.told == told
      ensures keys == db.committed.roots.Keys && lib0 == db.committed.lib && earlier == db.commits
      ensures roots0 == db.committed.roots
    {
      hide *;
      var t := db.NewTx();
      this.db, this.catalog, this.h, this.known, this.told := db, catalog, h, known, told;
      tx, cursor, listing, waiting, jobs, numObjs, stopped := t, "", true, {}, map[], 0, false;
      keys, lib0, earlier, listed, done, kept := db.committed.roots.Keys, db.committed.lib, db.commits, [], [], 0;
      results, roots0 := [], db.committed.roots;
      new;
      NoneRenewed(roots0);
      assert done[..0] == [];
      NothingRead(lib0, catalog, keys);
      assert results[..0] == [];
      TakenIs();
      BatchedIs();
      t.SameIsValid(db.committed, h);
      SameParts(t, db.committed);
      NothingYet(lib0, catalog, keys, known);
      NoCommitsYet(earlier, lib0, catalog, keys);
      NoKeys(jobs);
      Whole();
      ValidIs();
    }

    /** Reads the next page of roots and adds them to the work. */
    method ListPage()
      requires Valid() && !stopped && listing
      modifies this`cursor, this`listing, this`waiting, this`listed
      ensures Valid() && !stopped && Left() < old(Left())
      ensures var page := PageAfter(keys, old(cursor), PageSize(0));
              && listed == old(listed) + page.items
              && (listing <==> page.next != "") && (listing ==> cursor == page.next)
              && forall p :: p in waiting <==> p in old(waiting) || p in page.items
    {
      hide *;
      Parts();
      var items, next := Listings.ListObjectRoots(tx, 0, cursor);
      PageSplits(keys, cursor, PageSize(0));
      ghost var page := PageAfter(keys, cursor, PageSize(0));
      ItemPaths(tx.roots, page.items, items);
      FewPaths(items, page.items);
      ListPaths(items, page.items);
      Record(PathsOf(items), next, page.items);
    }

    /** Adds the roots of a page to the work. */
    method Record(paths: set<string>, next: string, ghost items: seq<string>)
      requires Valid() && !stopped && listing
      requires After(keys, cursor) == items + (if next == "" then [] else After(keys, next))
      requires (forall p :: p in paths <==> p in items) && |paths| <= |items| && (next != "" ==> items != [])
      modifies this`cursor, this`listing, this`waiting, this`listed
      ensures Valid() && !stopped && Left() < old(Left())
      ensures listed == old(listed) + items && waiting == old(waiting) + paths
      ensures listing <==> next != ""
      ensures listing ==> cursor == next
    {
      hide *;
      Split();
      LeftIs();
      MoreListed(keys, listed, items, if next == "" then [] else After(keys, next), waiting, jobs.Keys, done);
      SamePaths(waiting, items, paths);
      FewerLeft(waiting, paths, items, if next == "" then [] else After(keys, next), next != "", |jobs.Keys|);
      waiting := waiting + paths;
      listed := listed + items;
      if next == "" {
        listing := false;
      } else {
        cursor := next;
      }
      LeftIs();
      Split();
    }

    /** What parsing finds: the inventory, with the digest indexed at its root. */
    method Read(p: string) returns (job: Job)
      requires tx.Valid(h) && Sourced(tx.lib, known)
      ensures JobIsTrue(tx.lib, catalog, keys, known, p, job)
      ensures job == Invalid <==> catalog(p).None?
      ensures job.Parsed? ==> catalog(p) == Some(job.inv)
      ensures job.Parsed? ==> forall i :: i in tx.lib && tx.lib[i].root == p ==> job.prev == Some(tx.lib[i].digest)
      ensures job.Parsed? && (forall i :: i in tx.lib ==> tx.lib[i].root != p) ==> job.prev == None
      ensures FoundAt(tx.lib, catalog, p, job)
    {
      hide Tx.Valid, JobTrue, Sourced;
      var found := Listings.GetObjectByPath(tx, p, h);
      var prev := if found.Some? then Some(found.value.digest) else None;
      DigestsFound(tx.lib);
      ParsedTrue(tx.lib, catalog, keys, known, p, prev);
      job := if catalog(p).None? then Invalid else Parsed(prev, catalog(p).value);
    }

    /** Parses the inventory at a root, noting the digest indexed there. */
    method Parse(p: string)
      requires Valid() && !stopped && p in waiting
      modifies this`waiting, this`jobs
      ensures Valid() && !stopped && waiting == old(waiting) - {p} && jobs.Keys == old(jobs).Keys + {p}
      ensures FoundAt(tx.lib, catalog, p, jobs[p]) && jobs == old(jobs)[p := jobs[p]]
      ensures Left() < old(Left())
    {
      hide *;
      Parts();
      var job := Read(p);
      Note(p, job);
      assert jobs.Keys == old(jobs).Keys + {p};
    }

    /** Adds what was found at a root to the jobs. */
    method Note(p: string, job: Job)
      requires Valid() && !stopped && p in waiting
      requires JobIsTrue(tx.lib, catalog, keys, known, p, job) && FoundAt(tx.lib, catalog, p, job)
      modifies this`waiting, this`jobs
      ensures Valid() && !stopped && waiting == old(waiting) - {p} && jobs == old(jobs)[p := job]
      ensures Left() < old(Left())
    {
      hide *;
      Parts();
      LeftIs();
      OneParsed(keys, listed, ToList(), waiting, jobs.Keys, done, p);
      OneMoreJob(tx.lib, catalog, keys, known, jobs, p, job);
      ValidIs();
      TakenIs();
      FoundIsRead(lib0, catalog, keys, done, p, job);
      MoreRead(lib0, catalog, keys, jobs, p, job);
      waiting := waiting - {p};
      jobs := jobs[p := job];
      assert jobs.Keys == old(jobs).Keys + {p};
      LeftIs();
      Whole();
      TakenIs();
      ValidIs();
    }

    /** Deals with the result for a root: nothing to index, nothing new, or an
        inventory to index. After every tenth inventory the transaction is
        committed. The run stops exactly when an inventory is not acceptable. */
    method Deliver(p: string, now: int)
      requires Valid() && !stopped && p in jobs
      modifies this`jobs, this`numObjs, this`stopped, this`tx, this`done, this`results, this`kept, tx, db
      ensures Valid() && jobs == old(jobs) - {p} && Left() < old(Left())
      ensures !stopped ==>
                tx.roots == if Renews(old(jobs)[p]) then WithRoot(old(tx.roots), p, now) else old(tx.roots)
      ensures p in keys && p !in old(done)
      ensures results == if stopped then old(results) else old(results) + [old(jobs)[p]]
      ensures !stopped ==> numObjs == old(numObjs) + if Renews(old(jobs)[p]) then 1 else 0
      ensures stopped <==> catalog(p).Some? && !Acceptable(Effect(lib0, catalog, old(done)), catalog(p).value, p)
      ensures if stopped then done == old(done) && db.committed == old(db.committed) else done == old(done) + [p]
      ensures kept == if !stopped && Renews(old(jobs)[p]) && numObjs % 10 == 0 then |done| else old(kept)
      ensures fresh(tx) || tx == old(tx)
    {
      hide *;
      Parts();
      ValidIs();
      TakenIs();
      ghost var before, jobs0 := tx.lib, jobs;
      LeftIs();
      JobOf(tx.lib, catalog, keys, known, jobs, p);
      OneDone(keys, listed, ToList(), waiting, jobs.Keys, done, p);
      EnteredIs(before, catalog, p);
      var job := jobs[p];
      jobs := jobs - {p};
      JobsLeft(tx.lib, catalog, keys, known, jobs0, p);
      assert jobs.Keys == jobs0.Keys - {p};
      LeftIs();
      ResultOfJob(lib0, catalog, keys, jobs0, p, done, results);
      RenewsIs(job);
      TakenIs();
      Whole0();
      if job.Invalid? {
        PassOver(p, job);
        return;
      }
      var inv := job.inv;
      LawfulInventory(catalog, keys, known, p);
      if job.prev == Some(inv.digest) && inv.digest != "" {
        SkipIsRight(before, catalog, keys, known, p, inv);
        PassOver(p, job);
        return;
      }
      IndexOne(p, now, inv, job.prev);
    }

    /** A result that leaves the library as it is. */
    ghost method PassOver(p: string, job: Job)
      requires Valid0() && !Renews(job) && Entered(tx.lib, catalog, p) == tx.lib
      requires InPlace(keys, listed, ToList(), waiting, jobs.Keys, done + [p])
      requires ResultsRead(lib0, catalog, keys, done + [p], results + [job])
      modifies this`done, this`results
      ensures Valid() && done == old(done) + [p] && results == old(results) + [job]
    {
      hide *;
      Parts0();
      TakenIs();
      RenewedStays(roots0, tx.roots, done, results, p, job);
      BatchedIs();
      EffectMore(lib0, catalog, done, p);
      CommitsStayShown(db.commits, earlier, lib0, catalog, keys, done, p);
      RenewalsMore(results, job);
      done, results := done + [p], results + [job];
      TakenIs();
      BatchedIs();
      Whole();
      ValidIs();
    }

    /** Indexes one inventory, and commits after every tenth. */
    method IndexOne(p: string, now: int, inv: Inventory, ghost prev: Option<string>)
      requires Valid0() && p in keys && p !in jobs && catalog(p) == Some(inv) && Renews(Parsed(prev, inv))
      requires InPlace(keys, listed, ToList(), waiting, jobs.Keys, done + [p])
      requires ResultsRead(lib0, catalog, keys, done + [p], results + [Parsed(prev, inv)])
      modifies this`numObjs, this`stopped, this`tx, this`done, this`results, this`kept, tx, db
      ensures Valid() && (fresh(tx) || tx == old(tx))
      ensures stopped <==> !Acceptable(old(tx.lib), inv, p)
      ensures if stopped then done == old(done) && db.committed == old(db.committed) else done == old(done) + [p]
      ensures results == if stopped then old(results) else old(results) + [Parsed(prev, inv)]
      ensures numObjs == old(numObjs) + 1
      ensures !stopped ==> tx.roots == WithRoot(old(tx.roots), p, now)
      ensures kept == if !stopped && numObjs % 10 == 0 then |done| else old(kept)
    {
      hide *;
      Parts0();
      TakenIs();
      BatchedIs();
      RenewalsMore(results, Parsed(prev, inv));
      LawfulInventory(catalog, keys, known, p);
      TellingThere(h, told, catalog, keys, p);
      EffectMore(lib0, catalog, done, p);
      CommitsStayShown(db.commits, earlier, lib0, catalog, keys, done, p);
      EnteredIs(tx.lib, catalog, p);
      numObjs := numObjs + 1;
      ghost var before0, before := tx.roots, tx.lib;
      var r := tx.IndexObjectInventory(h, p, now, inv, told);
      if r.Refused? {
        stopped := true;
        TakenIs();
        Stopped();
        return;
      }
      SameRoots(before0, p, now);
      OneRenewed(roots0, before0, done, results, p, Parsed(prev, inv), now);
      EnteredIsSourced(before, known, inv, p);
      JobsStayTrue(before, catalog, keys, known, jobs, p, inv);
      done, results := done + [p], results + [Parsed(prev, inv)];
      Whole();
      TakenIs();
      CommitTenth();
    }

    /** Commits if the number of inventories is a multiple of ten. */
    method CommitTenth()
      requires Sound() && Taken() && !stopped && |done| == |results| && kept <= |done|
      requires Renewals(results[..kept]) % 10 == 0 && Renewals(results) <= Renewals(results[..kept]) + 10
      requires OnlyRenewed(roots0, db.committed.roots, done[..kept], results[..kept])
      modifies this`tx, this`kept, db
      ensures Valid() && (fresh(tx) || tx == old(tx))
      ensures kept == if numObjs % 10 == 0 then |done| else old(kept)
      ensures tx.roots == old(tx.roots)
      ensures if numObjs % 10 == 0 then db.committed == old(tx) else db.committed == old(db.committed)
    {
      hide *;
      Batch();
      TakenIs();
      SoundParts();
      if numObjs % INVENTORIES_PER_COMMIT == 0 {
        OneMoreShown(db.commits, earlier, lib0, catalog, keys, done, Snapshot(tx.roots, tx.lib));
        db.Commit(tx);
        tx := db.NewTx();
        tx.SameIsValid(db.committed, h);
        SameParts(tx, db.committed);
        kept := |done|;
        assert done[..kept] == done && results[..kept] == results;
        TakenIs();
        Whole();
      }
      BatchedIs();
      ValidIs();
    }

    /** Commits what is pending: the database then shows the effect of every root's inventory. */
    method Finish()
      requires Valid() && !stopped && !listing && waiting == {} && jobs == map[] && "" !in keys
      modifies db, this`kept
      ensures db.committed == tx && db.committed.Valid(h) && db.committed.roots.Keys == keys
      ensures Stocked(db.committed.den, told)
      ensures db.committed.lib == Effect(lib0, catalog, done) && Sourced(db.committed.lib, known)
      ensures CommitsShown(db.commits, earlier, lib0, catalog, keys, done)
      ensures forall p :: p in done <==> p in keys
      ensures forall i, j :: 0 <= i < j < |done| ==> done[i] != done[j]
    {
      hide *;
      Parts();
      NoKeys(jobs);
      NothingToList();
      AllDone(keys, listed, done);
      OneMoreShown(db.commits, earlier, lib0, catalog, keys, done, Snapshot(tx.roots, tx.lib));
      db.Commit(tx);
      kept := |done|;
    }

    // ----- the parts of the invariant -----

    lemma Parts()
      requires Valid()
      ensures Telling(h, told, catalog, keys) && Lawful(catalog, keys, known)
      ensures db.committed.Valid(h) && db.committed.roots.Keys == keys && Stocked(db.committed.den, told)
      ensures kept <= |done| && db.committed.lib == Effect(lib0, catalog, done[..kept])
      ensures Sourced(db.committed.lib, known) && CommitsShown(db.commits, earlier, lib0, catalog, keys, done)
      ensures !stopped ==> tx != db.committed && tx.Valid(h) && tx.roots.Keys == keys && Stocked(tx.den, told)
      ensures !stopped ==> tx.lib == Effect(lib0, catalog, done)
      ensures !stopped ==> Sourced(tx.lib, known) && JobsTrue(tx.lib, catalog, keys, known, jobs)
      ensures !stopped ==> InPlace(keys, listed, ToList(), waiting, jobs.Keys, done)
      ensures ToList() == if listing then After(keys, cursor) else []
      ensures ResultsRead(lib0, catalog, keys, done, results) && |results| == |done|
      ensures Renewals(results[..kept]) % 10 == 0 && Renewals(results[kept..]) < 10
      ensures OnlyRenewed(roots0, db.committed.roots, done[..kept], results[..kept])
      ensures !stopped ==> OnlyRenewed(roots0, tx.roots, done, results)
    {
      hide *;
      ValidIs();
      SoundParts();
      TakenIs();
      BatchedIs();
      RenewalsSplit(results, kept);
    }

    lemma SoundParts()
      requires Sound()
      ensures Telling(h, told, catalog, keys) && Lawful(catalog, keys, known)
      ensures db.committed.Valid(h) && db.committed.roots.Keys == keys && Stocked(db.committed.den, told)
      ensures kept <= |done| && db.committed.lib == Effect(lib0, catalog, done[..kept])
      ensures Sourced(db.committed.lib, known) && CommitsShown(db.commits, earlier, lib0, catalog, keys, done)
      ensures !stopped ==> tx != db.committed && tx.Valid(h) && tx.roots.Keys == keys && Stocked(tx.den, told)
      ensures !stopped ==> tx.lib == Effect(lib0, catalog, done)
      ensures !stopped ==> Sourced(tx.lib, known) && JobsTrue(tx.lib, catalog, keys, known, jobs)
      ensures !stopped ==> InPlace(keys, listed, ToList(), waiting, jobs.Keys, done)
      ensures ToList() == if listing then After(keys, cursor) else []
    {
      hide Tx.Valid, Lawful, Sourced, After, JobsTrue, InPlace, Effect, Telling, Stocked, CommitsShown;
    }

    lemma Whole()
      requires Telling(h, told, catalog, keys) && Lawful(catalog, keys, known)
      requires db.committed.Valid(h) && db.committed.roots.Keys == keys && Stocked(db.committed.den, told)
      requires kept <= |done| && db.committed.lib == Effect(lib0, catalog, done[..kept])
      requires Sourced(db.committed.lib, known) && CommitsShown(db.commits, earlier, lib0, catalog, keys, done)
      requires tx != db.committed && tx.Valid(h) && tx.roots.Keys == keys && Stocked(tx.den, told)
      requires tx.lib == Effect(lib0, catalog, done)
      requires Sourced(tx.lib, known) && JobsTrue(tx.lib, catalog, keys, known, jobs)
      requires InPlace(keys, listed, if listing then After(keys, cursor) else [], waiting, jobs.Keys, done)
      ensures Sound()
    {
      hide Tx.Valid, Lawful, Sourced, After, JobsTrue, InPlace, Effect, Telling, Stocked, CommitsShown;
    }

    /** The invariant, but for the place of the root that is being dealt with. */
    ghost predicate Valid0()
      reads this`tx, this`done, this`jobs, this`kept, this`stopped, this`results, this`numObjs, db, db.committed, tx
    {
      && Telling(h, told, catalog, keys) && Lawful(catalog, keys, known) && Committed() && Pending() && !stopped
      && Taken() && Batched()
    }

    lemma Split()
      ensures Valid() && !stopped <==> Valid0() && InPlace(keys, listed, ToList(), waiting, jobs.Keys, done)
    {
      hide Committed, Pending, Lawful, Telling, InPlace, Taken, Batched;
    }

    lemma Parts0()
      requires Valid0()
      ensures Telling(h, told, catalog, keys) && Lawful(catalog, keys, known) && !stopped
      ensures db.committed.Valid(h) && db.committed.roots.Keys == keys && Stocked(db.committed.den, told)
      ensures kept <= |done| && db.committed.lib == Effect(lib0, catalog, done[..kept])
      ensures Sourced(db.committed.lib, known) && CommitsShown(db.commits, earlier, lib0, catalog, keys, done)
      ensures tx != db.committed && tx.Valid(h) && tx.roots.Keys == keys && Stocked(tx.den, told)
      ensures tx.lib == Effect(lib0, catalog, done)
      ensures Sourced(tx.lib, known) && JobsTrue(tx.lib, catalog, keys, known, jobs)
      ensures ToList() == if listing then After(keys, cursor) else []
      ensures Taken() && Batched()
    {
      hide Tx.Valid, Lawful, Sourced, After, JobsTrue, InPlace, Effect, Telling, Stocked, CommitsShown, Taken, Batched;
    }

    lemma Whole0()
      requires Telling(h, told, catalog, keys) && Lawful(catalog, keys, known) && !stopped
      requires db.committed.Valid(h) && db.committed.roots.Keys == keys && Stocked(db.committed.den, told)
      requires kept <= |done| && db.committed.lib == Effect(lib0, catalog, done[..kept])
      requires Sourced(db.committed.lib, known) && CommitsShown(db.commits, earlier, lib0, catalog, keys, done)
      requires tx != db.committed && tx.Valid(h) && tx.roots.Keys == keys && Stocked(tx.den, told)
      requires tx.lib == Effect(lib0, catalog, done)
      requires Sourced(tx.lib, known) && JobsTrue(tx.lib, catalog, keys, known, jobs)
      requires Taken() && Batched()
      ensures Valid0()
    {
      hide Tx.Valid, Lawful, Sourced, After, JobsTrue, InPlace, Effect, Telling, Stocked, CommitsShown, Taken, Batched;
    }

    lemma Stopped()
      requires Telling(h, told, catalog, keys) && Lawful(catalog, keys, known) && stopped
      requires db.committed.Valid(h) && db.committed.roots.Keys == keys && Stocked(db.committed.den, told)
      requires kept <= |done| && db.committed.lib == Effect(lib0, catalog, done[..kept])
      requires Sourced(db.committed.lib, known) && CommitsShown(db.commits, earlier, lib0, catalog, keys, done)
      requires Taken() && Batched()
      ensures Valid()
    {
      hide Tx.Valid, Lawful, Sourced, After, JobsTrue, InPlace, Effect, Telling, Stocked, CommitsShown, Pending, Taken,
          Batched;
    }

    lemma NothingToList()
      requires !listing
      ensures ToList() == []
    {
    }
  }

  function PathsOf(items: seq<Listings.RootItem>): set<string>
  {
    set i | i in items :: i.path
  }

  lemma ItemPaths(roots: Roots, paths: seq<string>, items: seq<Listings.RootItem>)
    requires (forall p :: p in paths ==> p in roots) && items == Listings.RootItems(roots, paths)
    ensures PathsOf(items) == (set p | p in paths) && |items| == |paths|
  {
    forall p | p in paths ensures p in PathsOf(items) {
      var i :| 0 <= i < |paths| && paths[i] == p;
      assert items[i].path == p && items[i] in items;
    }
  }

  lemma {:induction false} FewPaths(items: seq<Listings.RootItem>, paths: seq<string>)
    requires |items| == |paths|
    ensures |PathsOf(items)| <= |paths|
    decreases |items|
  {
    if items == [] {
      assert PathsOf(items) == {};
    } else {
      var n := |items| - 1;
      FewPaths(items[..n], paths[..n]);
      assert items == items[..n] + [items[n]];
      assert PathsOf(items) == PathsOf(items[..n]) + {items[n].path};
    }
  }

  lemma ListPaths(items: seq<Listings.RootItem>, paths: seq<string>)
    requires PathsOf(items) == (set p | p in paths)
    ensures forall p :: p in PathsOf(items) <==> p in paths
  {
  }

  lemma SamePaths(waiting: set<string>, items: seq<string>, paths: set<string>)
    requires forall p :: p in paths <==> p in items
    ensures waiting + (set p | p in items) == waiting + paths
  {
  }

  lemma FewerLeft(waiting: set<string>, paths: set<string>, items: seq<string>, rest: seq<string>, more: bool, n: nat)
    requires |paths| <= |items| && (more ==> items != []) && (!more ==> rest == [])
    ensures 3 * |rest| + (if more then 1 else 0) + 2 * |waiting + paths| + n <
            3 * |items + rest| + 1 + 2 * |waiting| + n
  {
    assert |waiting + paths| <= |waiting| + |paths|;
  }

  lemma DigestsFound(lib: Library)
    ensures forall i :: i in lib ==> Listings.InfoFor(lib, i).digest == lib[i].digest
  {
  }

  lemma OneMoreJob(lib: Library, catalog: Catalog, keys: set<string>, known: Inventory -> bool,
                   jobs: map<string, Job>, p: string,
                   job: Job)
    requires JobsTrue(lib, catalog, keys, known, jobs) && JobIsTrue(lib, catalog, keys, known, p, job)
    ensures JobsTrue(lib, catalog, keys, known, jobs[p := job])
  {
    hide JobIsTrue;
  }

  lemma JobOf(lib: Library, catalog: Catalog, keys: set<string>, known: Inventory -> bool, jobs: map<string, Job>,
              p: string)
    requires JobsTrue(lib, catalog, keys, known, jobs) && p in jobs
    ensures jobs[p].Invalid? ==> catalog(p) == None
    ensures jobs[p].Parsed? ==> catalog(p) == Some(jobs[p].inv) && JobTrue(lib, catalog, keys, known, p, jobs[p].prev)
  {
    hide JobTrue;
    assert JobIsTrue(lib, catalog, keys, known, p, jobs[p]);
  }

  lemma JobsLeft(lib: Library, catalog: Catalog, keys: set<string>, known: Inventory -> bool, jobs: map<string, Job>,
                 p: string)
    requires JobsTrue(lib, catalog, keys, known, jobs)
    ensures JobsTrue(lib, catalog, keys, known, jobs - {p})
  {
    hide JobIsTrue;
  }

  lemma EnteredIs(lib: Library, catalog: Catalog, p: string)
    ensures catalog(p).None? ==> Entered(lib, catalog, p) == lib
    ensures catalog(p).Some? && catalog(p).value.head in catalog(p).value.versions ==>
              Entered(lib, catalog, p) == lib[catalog(p).value.id := Indexed(lib, catalog(p).value, p)]
  {
    hide Indexed;
  }

  lemma LawfulInventory(catalog: Catalog, keys: set<string>, known: Inventory -> bool, p: string)
    requires Lawful(catalog, keys, known) && p in keys && catalog(p).Some?
    ensures Validated(catalog(p).value) && known(catalog(p).value)
  {
    hide Validated;
  }

  lemma SameRoots(roots: Roots, p: string, now: int)
    requires p in roots
    ensures WithRoot(roots, p, now).Keys == roots.Keys
  {
  }

  lemma Batch()
    ensures INVENTORIES_PER_COMMIT == 10
  {
  }

  lemma NoKeys(jobs: map<string, Job>)
    requires jobs == map[]
    ensures jobs.Keys == {}
  {
  }

  lemma NothingYet(lib: Library, catalog: Catalog, keys: set<string>, known: Inventory -> bool)
    ensures Effect(lib, catalog, []) == lib
    ensures JobsTrue(lib, catalog, keys, known, map[])
    ensures InPlace(keys, [], After(keys, ""), {}, {}, [])
  {
    hide After;
    assert [] + After(keys, "") == After(keys, "");
  }
}
