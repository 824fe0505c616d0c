/** Updating the table of object roots from a scan of the storage root: mark
    every root found with the current time, then sweep away those not marked. */
module Sweep {
  import opened Digests
  import opened Objects
  import opened Tables

  /** What readers see after a commit. */
  datatype Snapshot = Snapshot(roots: Roots, lib: Library)

  /** The database: what its last commit left, which is what readers see. */
  class Database {
    var committed: Tx
    /** What each commit so far has left. */
    ghost var commits: seq<Snapshot>

    constructor (ghost h: Hash)
      ensures committed.Valid(h) && committed.lib == map[] && committed.roots == map[] && committed.den == map[]
      ensures commits == []
    {
      committed := new Tx.Empty(h);
      commits := [];
    }

    method NewTx() returns (tx: Tx)
      ensures fresh(tx) && tx.SameAs(committed)
    {
      tx := new Tx.Begin(committed);
    }

    method Commit(tx: Tx)
      modifies this
      ensures committed == tx && commits == old(commits) + [Snapshot(tx.roots, tx.lib)]
    {
      committed := tx;
      commits := commits + [Snapshot(tx.roots, tx.lib)];
    }
  }

  /** A scan: the object roots it comes upon, and whether it gets to its end. */
  datatype Scan = Scan(found: seq<string>, complete: bool)

  /** The roots that a scan comes upon. */
  function Found(scan: Scan): (r: set<string>)
    ensures forall p :: p in r <==> p in scan.found
  {
    set p | p in scan.found
  }

  const ROOTS_PER_COMMIT := 1000

  /** The roots table once the listed roots are marked with the listed times. */
  function Marked(roots: Roots, paths: seq<string>, times: seq<int>): Roots
    requires |paths| <= |times|
  {
    if paths == [] then roots
    else
      var last := |paths| - 1;
      WithRoot(Marked(roots, paths[..last], times), paths[last], times[last])
  }

  ghost predicate InOrder(times: seq<int>)
  {
    forall i, j :: 0 <= i < j < |times| ==> times[i] <= times[j]
  }

  /** A root marked with one of the times. */
  ghost predicate HasTime(roots: Roots, p: string, times: seq<int>, k: nat)
  {
    p in roots && exists i :: 0 <= i < k && i < |times| && roots[p].indexedAt == times[i]
  }

  lemma OneRootMarked(roots: Roots, path: string, at: int)
    ensures var r := WithRoot(roots, path, at);
            && (forall p :: p in r <==> p in roots || p == path)
            && (forall p :: p in roots && p != path ==> r[p] == roots[p])
            && (forall p :: p in roots ==> r[p].id == roots[p].id)
            && r[path].indexedAt == at
  {
  }

  /** Roots found carry a time of the scan; the others are as they were. */
  lemma {:induction false} MarkedRoots(roots: Roots, paths: seq<string>, times: seq<int>)
    requires |paths| <= |times|
    ensures forall p :: p in Marked(roots, paths, times) <==> p in roots || p in paths
    ensures forall p :: p in roots && p !in paths ==> Marked(roots, paths, times)[p] == roots[p]
    ensures forall p :: p in roots ==> Marked(roots, paths, times)[p].id == roots[p].id
    ensures forall p :: p in paths ==> HasTime(Marked(roots, paths, times), p, times, |paths|)
    decreases |paths|
  {
    hide WithRoot;
    if paths != [] {
      var last := |paths| - 1;
      var front := paths[..last];
      MarkedRoots(roots, front, times);
      var before, r := Marked(roots, front, times), Marked(roots, paths, times);
      OneRootMarked(before, paths[last], times[last]);
      assert paths == front + [paths[last]];
      forall p | p in paths ensures HasTime(r, p, times, |paths|) {
        if p == paths[last] {
          assert r[p].indexedAt == times[last];
        } else {
          assert p in front && HasTime(before, p, times, last);
        }
      }
    }
  }

  /** What a commit during a scan may leave: the objects as they were, and some of
      the roots found marked. */
  ghost predicate MarksOnly(c: Snapshot, roots: Roots, lib: Library, paths: seq<string>, times: seq<int>)
  {
    && c.lib == lib && roots.Keys <= c.roots.Keys
    && exists k :: 0 <= k <= |paths| && |paths| <= |times| && c.roots == Marked(roots, paths[..k], times)
  }

  /** The commits made after the earlier ones all do. */
  ghost predicate OnlyMarks(commits: seq<Snapshot>, earlier: seq<Snapshot>, roots: Roots, lib: Library,
                            paths: seq<string>, times: seq<int>)
  {
    && |earlier| <= |commits| && commits[..|earlier|] == earlier
    && forall j :: |earlier| <= j < |commits| ==> MarksOnly(commits[j], roots, lib, paths, times)
  }

  lemma NoCommits(commits: seq<Snapshot>, roots: Roots, lib: Library, paths: seq<string>, times: seq<int>)
    ensures OnlyMarks(commits, commits, roots, lib, paths, times)
  {
  }

  lemma OneMoreCommit(commits: seq<Snapshot>, earlier: seq<Snapshot>, roots: Roots, lib: Library,
                      paths: seq<string>, times: seq<int>, k: nat)
    requires OnlyMarks(commits, earlier, roots, lib, paths, times) && k <= |paths| <= |times|
    ensures OnlyMarks(commits + [Snapshot(Marked(roots, paths[..k], times), lib)], earlier, roots, lib, paths, times)
  {
    hide Marked;
    Grown(roots, paths, times, k);
    var c := Snapshot(Marked(roots, paths[..k], times), lib);
    assert MarksOnly(c, roots, lib, paths, times);
    assert (commits + [c])[..|earlier|] == commits[..|earlier|];
  }

  /** Marks the roots of a scan, committing after every thousandth. If the scan
      fails, or a root has no path, only whole batches stay. No commit on the way
      removes a root or touches an object. */
  method MarkRoots(db: Database, scan: Scan, times: seq<int>, ghost h: Hash) returns (ok: bool, ghost kept: nat)
    requires db.committed.Valid(h) && |scan.found| <= |times|
    modifies db
    ensures db.committed.Valid(h) && db.committed.lib == old(db.committed.lib)
    ensures db.committed.den == old(db.committed.den)
    ensures ok <==> scan.complete && "" !in scan.found
    ensures kept <= |scan.found| && db.committed.roots == Marked(old(db.committed.roots), scan.found[..kept], times)
    ensures ok ==> kept == |scan.found|
    ensures !ok && "" !in scan.found ==> kept == |scan.found| - |scan.found| % 1000
    ensures forall k :: 0 <= k < |scan.found| && scan.found[k] == "" && "" !in scan.found[..k] ==> kept == k - k % 1000
    ensures |db.commits| == |old(db.commits)| + kept / 1000 + if ok then 1 else 0
    ensures fresh(db.committed) || db.committed == old(db.committed)
    ensures OnlyMarks(db.commits, old(db.commits), old(db.committed.roots), old(db.committed.lib), scan.found, times)
  {
    hide *;
    BatchSize();
    ghost var roots0, lib0, den0, commits0 := db.committed.roots, db.committed.lib, db.committed.den, db.commits;
    NoCommits(commits0, roots0, lib0, scan.found, times);
    var tx := db.NewTx();
    tx.SameIsValid(db.committed, h);
    SameParts(tx, db.committed);
    kept := 0;
    NoneMarked(roots0, scan.found, times);
    var found := 0;
    ghost var batches := 0;
    while found < |scan.found|
      invariant found <= |scan.found| && kept == 1000 * batches <= found < 1000 * batches + 1000
      invariant |db.commits| == |commits0| + batches
      invariant fresh(tx) && tx != db.committed && tx.Valid(h) && tx.lib == lib0 && tx.den == den0
      invariant db.committed.Valid(h) && db.committed.lib == lib0 && db.committed.den == den0
      invariant fresh(db.committed) || db.committed == old(db.committed)
      invariant tx.roots == Marked(roots0, scan.found[..found], times)
      invariant db.committed.roots == Marked(roots0, scan.found[..kept], times)
      invariant OnlyMarks(db.commits, commits0, roots0, lib0, scan.found, times)
      invariant "" !in scan.found[..found]
    {
      var r := tx.IndexObjectRoot(scan.found[found], times[found], h);
      BatchesMean(found, batches);
      if r.Refused? {
        ok := false;
        return;
      }
      OneMoreMarked(roots0, scan.found, times, found);
      tx.ValidIs(h);
      BatchEnds(found, batches);
      found := found + 1;
      if found % ROOTS_PER_COMMIT == 0 {
        OneMoreCommit(db.commits, commits0, roots0, lib0, scan.found, times, found);
        tx := CommitAndBegin(db, tx, h);
        kept, batches := found, batches + 1;
      }
    }
    assert scan.found[..found] == scan.found;
    BatchesMean(found, batches);
    if !scan.complete {
      ok := false;
      return;
    }
    OneMoreCommit(db.commits, commits0, roots0, lib0, scan.found, times, found);
    db.Commit(tx);
    kept := found;
    ok := true;
  }

  /** Commits and goes on in a new transaction. */
  method CommitAndBegin(db: Database, tx: Tx, ghost h: Hash) returns (next: Tx)
    requires tx.Valid(h)
    modifies db
    ensures db.committed == tx && db.commits == old(db.commits) + [Snapshot(tx.roots, tx.lib)]
    ensures fresh(next) && next.Valid(h) && next.roots == tx.roots && next.lib == tx.lib && next.den == tx.den
  {
    hide *;
    db.Commit(tx);
    next := db.NewTx();
    next.SameIsValid(tx, h);
    SameParts(next, tx);
  }

  lemma SameParts(a: Tx, b: Tx)
    requires a.SameAs(b)
    ensures a.lib == b.lib && a.roots == b.roots && a.den == b.den
  {
  }

  lemma NoneMarked(roots: Roots, paths: seq<string>, times: seq<int>)
    requires |paths| <= |times|
    ensures Marked(roots, paths[..0], times) == roots
  {
  }

  lemma OneMoreMarked(roots: Roots, paths: seq<string>, times: seq<int>, k: nat)
    requires k < |paths| <= |times|
    ensures Marked(roots, paths[..k + 1], times) == WithRoot(Marked(roots, paths[..k], times), paths[k], times[k])
  {
    assert paths[..k + 1][..k] == paths[..k];
  }

  lemma BatchEnds(found: nat, batches: nat)
    requires 1000 * batches <= found < 1000 * batches + 1000
    ensures (found + 1) % 1000 == 0 <==> found + 1 == 1000 * batches + 1000
  {
  }

  lemma BatchesMean(found: nat, batches: nat)
    requires 1000 * batches <= found < 1000 * batches + 1000
    ensures 1000 * batches == found - found % 1000 && (1000 * batches) / 1000 == batches == found / 1000
  {
  }

  lemma BatchSize()
    ensures ROOTS_PER_COMMIT == 1000
  {
  }

  /** Synchronizes the roots with a scan that starts at `start`. When it
      succeeds, the roots left are those found, and those that were marked later
      than the start already; the objects left are those whose roots are left,
      each as it was. When it fails, nothing is removed. Until the sweep, whose
      commit is the last, no commit removes anything. */
  method SyncObjectRoots(db: Database, scan: Scan, start: int, times: seq<int>, ghost h: Hash) returns (ok: bool)
    requires db.committed.Valid(h) && |scan.found| <= |times|
    requires InOrder([start] + times)
    modifies db
    ensures db.committed.Valid(h) && db.committed.den == old(db.committed.den)
    ensures ok <==> scan.complete && "" !in scan.found
    ensures !ok ==> db.committed.lib == old(db.committed.lib) && old(db.committed.roots).Keys <= db.committed.roots.Keys
    ensures ok ==> db.commits != []
    ensures OnlyMarks(if ok then db.commits[..|db.commits| - 1] else db.commits, old(db.commits),
                      old(db.committed.roots), old(db.committed.lib), scan.found, times)
    ensures ok ==> db.committed.lib == LibraryOf(old(db.committed.lib), db.committed.roots)
    ensures var lib0, lib := old(db.committed.lib), db.committed.lib;
            ok ==>
              && (forall i :: i in lib <==> i in lib0 && lib0[i].root in db.committed.roots)
              && forall i :: i in lib ==> lib[i] == lib0[i]
    ensures ok ==> forall p :: p in db.committed.roots ==>
              if p in scan.found then HasTime(db.committed.roots, p, times, |scan.found|)
              else p in old(db.committed.roots) && db.committed.roots[p] == old(db.committed.roots)[p]
    ensures ok ==> forall p :: p in db.committed.roots <==>
                     p in scan.found || (p in old(db.committed.roots) && old(db.committed.roots)[p].indexedAt >= start)
  {
    hide *;
    ghost var roots0 := db.committed.roots;
    ghost var kept;
    ok, kept := MarkRoots(db, scan, times, h);
    Grown(roots0, scan.found, times, kept);
    if !ok {
      return;
    }
    assert scan.found[..kept] == scan.found;
    ghost var roots1 := db.committed.roots;
    var tx := db.NewTx();
    tx.SameIsValid(db.committed, h);
    SameParts(tx, db.committed);
    tx.RemoveObjectsBefore(start, h);
    Swept(roots0, scan.found, start, times);
    ObjectsLeft(old(db.committed.lib), tx.roots);
    ghost var commits1 := db.commits;
    db.Commit(tx);
    assert db.commits[..|db.commits| - 1] == commits1;
  }

  lemma ObjectsLeft(lib: Library, roots: Roots)
    ensures forall i :: i in LibraryOf(lib, roots) <==> i in lib && lib[i].root in roots
    ensures forall i :: i in LibraryOf(lib, roots) ==> LibraryOf(lib, roots)[i] == lib[i]
  {
  }

  lemma Grown(roots: Roots, paths: seq<string>, times: seq<int>, k: nat)
    requires k <= |paths| <= |times|
    ensures roots.Keys <= Marked(roots, paths[..k], times).Keys
  {
    MarkedRoots(roots, paths[..k], times);
  }

  lemma Swept(roots: Roots, paths: seq<string>, start: int, times: seq<int>)
    requires |paths| <= |times| && InOrder([start] + times)
    ensures forall p :: p in RootsSince(Marked(roots, paths, times), start) <==>
                        p in paths || (p in roots && roots[p].indexedAt >= start)
    ensures var left := RootsSince(Marked(roots, paths, times), start);
            forall p :: p in left ==>
              if p in paths then HasTime(left, p, times, |paths|) else p in roots && left[p] == roots[p]
  {
    var all := [start] + times;
    MarkedRoots(roots, paths, times);
    forall i | 0 <= i < |times| ensures start <= times[i] {
      assert all[0] <= all[i + 1];
    }
  }
}
