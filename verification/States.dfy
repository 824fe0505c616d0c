/** A version state as a tree: what `PathTree` must build from a map of
    logical paths to digests. */
module States {
  import opened Trees
  import opened PathMaps

  /** For every path of a tree, its digest when a file stands there, or None for a directory. */
  type Skeleton = map<Path, Option<Sum>>

  ghost function Bare(m: PathMap<Sum>): (s: Skeleton)
    ensures s.Keys == m.Keys
  {
    map p | p in m :: if m[p].dir then None else Some(m[p].val)
  }

  ghost function ChildNames(s: Skeleton, p: Path): (r: set<string>)
    ensures forall k :: k in r <==> p + [k] in s
  {
    var below := set q | q in s && |q| == |p| + 1 && p <= q :: q[|p|];
    assert forall k :: p + [k] in s ==> (p + [k])[|p|] == k && k in below;
    assert forall q :: q in s && |q| == |p| + 1 && p <= q ==> q == p + [q[|p|]];
    below
  }

  lemma FewerBelow(s: Skeleton, p: Path, k: string)
    requires p in s
    ensures (set q | q in s && p + [k] <= q) < (set q | q in s && p <= q)
  {
    var small, big := set q | q in s && p + [k] <= q, set q | q in s && p <= q;
    assert p in big && p !in small;
    assert p <= p + [k];
    assert forall q :: q in small ==> q in big;
  }

  /** The tree below `p`. */
  ghost function TreeAt(s: Skeleton, p: Path): Tree
    requires p in s
    decreases set q | q in s && p <= q
  {
    match s[p]
    case Some(sum) => File(sum)
    case None =>
      Dir(map k | k in ChildNames(s, p) :: ChildTree(s, p, k))
  }

  ghost function ChildTree(s: Skeleton, p: Path, k: string): Tree
    requires p in s && p + [k] in s
    decreases set q | q in s && p <= q, 0
  {
    FewerBelow(s, p, k);
    TreeAt(s, p + [k])
  }

  /** Holds the root, and every other path lies in a directory. */
  ghost predicate ClosedSkeleton(s: Skeleton)
  {
    [] in s && forall p: Path, k: string {:trigger p + [k] in s} :: p + [k] in s ==> p in s && s[p].None?
  }

  /** Following a path through the tree is looking it up in the skeleton. */
  lemma {:induction false} GetTreeAt(s: Skeleton, p: Path, q: Path)
    requires ClosedSkeleton(s) && p in s
    ensures Get(TreeAt(s, p), q) == if p + q in s then Some(TreeAt(s, p + q)) else None
    decreases |q|
  {
    if q == [] {
      assert p + q == p;
    } else {
      var step := p + [q[0]];
      assert step + q[1..] == p + q;
      if step in s {
        GetTreeAt(s, step, q[1..]);
      } else if p + q in s {
        SkeletonPrefix(s, p + q, step);
      }
    }
  }

  lemma {:induction false} SkeletonPrefix(s: Skeleton, p: Path, q: Path)
    requires ClosedSkeleton(s) && p in s && q <= p
    ensures q in s
    decreases |p|
  {
    if q != p {
      var up := p[..|p| - 1];
      assert p == up + [p[|p| - 1]];
      assert q == up[..|q|];
      SkeletonPrefix(s, up, q);
    }
  }

  /** A state given by the names along each logical path. */
  type Files = map<Path, Sum>

  /** No logical path is the root or lies below another one. */
  ghost predicate PrefixFree(files: Files)
  {
    [] !in files && forall p, q :: p in files && q in files && p <= q ==> p == q
  }

  /** `p` is the root or a directory some file lies in. */
  ghost predicate Holds(files: Files, p: Path)
  {
    p == [] || exists f :: f in files && p < f
  }

  ghost function SkeletonOf(files: Files): (s: Skeleton)
    ensures forall p :: p in s <==> p in files || Holds(files, p)
    ensures forall p :: p in s ==> s[p] == if p in files then Some(files[p]) else None
  {
    var above := set f, p | f in files && p in Prefixes(f) :: p;
    assert forall p :: Holds(files, p) ==> p in above + {[]} by {
      forall p | Holds(files, p) && p != [] ensures p in above {
        var f :| f in files && p < f;
        assert p in Prefixes(f);
      }
    }
    map p | p in files.Keys + above + {[]} && (p in files || Holds(files, p))
      :: if p in files then Some(files[p]) else None
  }

  lemma SkeletonOfIsClosed(files: Files)
    requires PrefixFree(files)
    ensures ClosedSkeleton(SkeletonOf(files))
  {
    var s := SkeletonOf(files);
    forall p: Path, k: string {:trigger p + [k] in s} | p + [k] in s ensures p in s && s[p].None? {
      assert p < p + [k];
      var f :| f in files && p + [k] <= f;
      assert p < f;
    }
  }

  /** The tree of a version state. */
  ghost function StateTree(files: Files): Tree
  {
    TreeAt(SkeletonOf(files), [])
  }

  /** What the tree of a state holds: exactly the state's files, in exactly the
      directories on the way to them. */
  lemma StateTreeMeaning(files: Files, p: Path)
    requires PrefixFree(files)
    ensures p in files ==> Get(StateTree(files), p) == Some(File(files[p]))
    ensures p !in files && Holds(files, p) ==>
              Get(StateTree(files), p).Some? && Get(StateTree(files), p).value.Dir?
    ensures p !in files && !Holds(files, p) ==> Get(StateTree(files), p) == None
  {
    SkeletonOfIsClosed(files);
    assert [] + p == p;
    GetTreeAt(SkeletonOf(files), [], p);
  }

  /** The names directly inside a directory of a state. */
  lemma StateTreeChildren(files: Files, p: Path, k: string)
    requires PrefixFree(files) && p !in files && Holds(files, p)
    ensures var d := Get(StateTree(files), p);
            d.Some? && d.value.Dir? && (k in d.value.children <==> p + [k] in files || Holds(files, p + [k]))
  {
    StateTreeMeaning(files, p);
    StateTreeMeaning(files, p + [k]);
    GetChild(StateTree(files), p, k);
  }

  /** States with the same tree are the same state. */
  lemma StateTreeIsInjective(a: Files, b: Files)
    requires PrefixFree(a) && PrefixFree(b) && StateTree(a) == StateTree(b)
    ensures a == b
  {
    forall p ensures p in a <==> p in b {
      StateTreeMeaning(a, p);
      StateTreeMeaning(b, p);
    }
    forall p | p in a ensures a[p] == b[p] {
      StateTreeMeaning(a, p);
      StateTreeMeaning(b, p);
    }
  }

  /** Putting one more file into a tree that shows `files`. */
  lemma AddFile(files: Files, m: PathMap<Sum>, p: Path, sum: Sum, zero: Sum)
    requires Bare(m) == SkeletonOf(files) && p != [] && p !in files && PrefixFree(files[p := sum])
    ensures Bare(Put(m, p, map[[] := Entry(false, sum)], zero)) == SkeletonOf(files[p := sum])
  {
    hide *;
    var m', s' := Put(m, p, map[[] := Entry(false, sum)], zero), SkeletonOf(files[p := sum]);
    forall q ensures q in Bare(m') <==> q in s' {
      AddFileKey(files, m, p, sum, zero, q);
    }
    forall q | q in Bare(m') ensures Bare(m')[q] == s'[q] {
      AddFileKey(files, m, p, sum, zero, q);
    }
  }

  lemma AddFileKey(files: Files, m: PathMap<Sum>, p: Path, sum: Sum, zero: Sum, q: Path)
    requires Bare(m) == SkeletonOf(files) && p != [] && p !in files && PrefixFree(files[p := sum])
    ensures var l, r := Bare(Put(m, p, map[[] := Entry(false, sum)], zero)), SkeletonOf(files[p := sum]);
            (q in l <==> q in r) && (q in l ==> l[q] == r[q])
  {
    hide Holds, PrefixFree;
    var s := SkeletonOf(files);
    assert m.Keys == s.Keys;
    AddFileHolds(files, p, sum, q);
    assert p <= q && q[|p|..] == [] ==> q == p;
    if q in m && q != p {
      assert Bare(m)[q] == s[q];
    }
  }

  lemma AddFileHolds(files: Files, p: Path, sum: Sum, q: Path)
    requires p != [] && p !in files && PrefixFree(files[p := sum])
    ensures var files' := files[p := sum];
            && (Holds(files', q) <==> Holds(files, q) || q <= p[..|p| - 1])
            && (p <= q && q != p ==> q !in files' && !Holds(files', q))
            && (q == p ==> !Holds(files', q))
            && (q <= p[..|p| - 1] ==> q !in files')
  {
    var files' := files[p := sum];
    var up := p[..|p| - 1];
    PrefixStep(q, up, p[|p| - 1]);
    assert p == up + [p[|p| - 1]];
    assert q <= up <==> q < p;
    assert p in files';
    if Holds(files', q) && q != [] {
      var f :| f in files' && q < f;
      assert f == p || f in files;
      assert p <= q ==> p <= f;
    }
    if Holds(files, q) && q != [] {
      var f :| f in files && q < f;
      assert f in files';
    }
  }

  /** A file that keeps the state prefix-free meets nothing on its way. */
  lemma WayIsClear(files: Files, m: PathMap<Sum>, p: Path, sum: Sum)
    requires Closed(m) && Bare(m) == SkeletonOf(files) && p != [] && PrefixFree(files[p := sum])
    ensures var up := p[..|p| - 1]; !Blocked(m, up) && (up in m ==> m[up].dir)
  {
    var up := p[..|p| - 1];
    var s := SkeletonOf(files);
    forall q | q in m && q <= up ensures m[q].dir {
      assert q < p && p in files[p := sum];
      assert Bare(m)[q] == s[q];
      assert q in files ==> q in files[p := sum];
    }
    AllClear(m, up);
  }

  lemma {:induction false} AllClear(m: PathMap<Sum>, p: Path)
    requires forall q :: q in m && q <= p ==> m[q].dir
    ensures !Blocked(m, p)
    decreases |p|
  {
    if p != [] {
      var up := p[..|p| - 1];
      forall q | q in m && q <= up ensures m[q].dir {
        assert up <= p;
      }
      AllClear(m, up);
    }
  }
}
