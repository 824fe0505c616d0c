/** The immutable meaning of a mutable path tree: a map from paths to entries,
    with the operations that the tree's methods are measured against. */
module PathMaps {
  import opened Trees

  datatype Entry<+T> = Entry(dir: bool, val: T)

  type PathMap<T> = map<Path, Entry<T>>

  /** Holds the root, and every other path lies in a directory of the map. */
  ghost predicate Closed<T>(m: PathMap<T>)
  {
    [] in m && forall p: Path, k: string {:trigger p + [k]} :: p + [k] in m ==> p in m && m[p].dir
  }

  /** The part of `m` at and below `p`, with paths taken relative to `p`. */
  ghost function Sub<V>(m: map<Path, V>, p: Path): (r: map<Path, V>)
    ensures p == [] ==> r == m
    ensures p != [] ==> forall q :: q in r <==> p + q in m
    ensures p != [] ==> forall q :: q in r ==> r[q] == m[p + q]
  {
    if p == [] then m
    else
      var below := set q | q in m && p <= q :: q[|p|..];
      assert forall q :: p + q in m ==> q in below by {
        forall q | p + q in m ensures q in below {
          assert (p + q)[|p|..] == q;
        }
      }
      map q | q in below && p + q in m :: m[p + q]
  }

  /** `m` without `p` and everything below it. */
  ghost function Without<V>(m: map<Path, V>, p: Path): (r: map<Path, V>)
    ensures forall q :: q in r <==> q in m && !(p <= q)
    ensures forall q :: q in r ==> r[q] == m[q]
  {
    map q | q in m && !(p <= q) :: m[q]
  }

  /** The paths of `s` taken from `p` on. */
  ghost function Shifted(s: set<Path>, p: Path): (r: set<Path>)
    ensures forall q :: q in r <==> p <= q && q[|p|..] in s
  {
    var r := set q | q in s :: p + q;
    assert forall q :: q in r <==> p <= q && q[|p|..] in s by {
      forall q ensures q in r <==> p <= q && q[|p|..] in s {
        ShiftedBack(s, p, q);
      }
    }
    r
  }

  lemma ShiftedBack(s: set<Path>, p: Path, q: Path)
    ensures (exists t :: t in s && q == p + t) <==> p <= q && q[|p|..] in s
  {
    if p <= q && q[|p|..] in s {
      assert q == p + q[|p|..];
    }
    if t :| t in s && q == p + t {
      assert q[|p|..] == t;
    }
  }

  /** `m` with `c` in the place of whatever was at and below `p`. */
  ghost function Graft<V>(m: map<Path, V>, p: Path, c: map<Path, V>): (r: map<Path, V>)
    ensures forall q :: q in r <==> if p <= q then q[|p|..] in c else q in m
    ensures forall q :: q in r ==> r[q] == if p <= q then c[q[|p|..]] else m[q]
  {
    map q | q in m.Keys + Shifted(c.Keys, p) && (if p <= q then q[|p|..] in c else q in m)
      :: if p <= q then c[q[|p|..]] else m[q]
  }

  ghost function Prefixes(p: Path): (r: set<Path>)
    ensures forall q :: q in r <==> q <= p
  {
    assert forall q: Path :: q <= p ==> q == p[..|q|];
    set i | 0 <= i <= |p| :: p[..i]
  }

  /** `m` with every missing directory on the way to `p` (and `p` itself) added. */
  ghost function Mkdirs<T>(m: PathMap<T>, p: Path, zero: T): (r: PathMap<T>)
    ensures forall q :: q in r <==> q in m || q <= p
    ensures forall q :: q in r ==> r[q] == if q in m then m[q] else Entry(true, zero)
  {
    map q | q in m.Keys + Prefixes(p) :: if q in m then m[q] else Entry(true, zero)
  }

  /** The tree after something is put at the non-empty path `p`. */
  ghost function Put<T>(m: PathMap<T>, p: Path, c: PathMap<T>, zero: T): PathMap<T>
    requires p != []
  {
    Graft(Mkdirs(m, p[..|p| - 1], zero), p, c)
  }

  lemma PutAt<T>(m: PathMap<T>, up: Path, name: string, c: PathMap<T>, zero: T)
    ensures Put(m, up + [name], c, zero) == Graft(Mkdirs(m, up, zero), up + [name], c)
  {
    assert (up + [name])[..|up|] == up;
  }

  /** No file stands at a proper prefix of `p`. */
  ghost predicate Clear<T>(m: PathMap<T>, p: Path)
    decreases |p|
  {
    p == [] || (var up := p[..|p| - 1]; Clear(m, up) && (up in m ==> m[up].dir))
  }

  /** A file stands where a directory on the way to `p` is needed. */
  ghost predicate Blocked<T>(m: PathMap<T>, p: Path)
  {
    !Clear(m, p) || (p == [] && [] in m && !m[[]].dir)
  }

  lemma ClearStep<T>(m: PathMap<T>, p: Path, k: string)
    ensures Clear(m, p + [k]) <==> Clear(m, p) && (p in m ==> m[p].dir)
  {
    assert (p + [k])[..|p|] == p;
  }

  lemma {:induction false} ClearPrefix<T>(m: PathMap<T>, p: Path, q: Path)
    requires Clear(m, p) && q < p
    ensures Clear(m, q) && (q in m ==> m[q].dir)
    decreases |p|
  {
    var up := p[..|p| - 1];
    assert q == up[..|q|];
    if q != up {
      ClearPrefix(m, up, q);
    }
  }

  lemma FileOnTheWay<T>(m: PathMap<T>, p: Path, q: Path)
    requires q in m && !m[q].dir && (q < p || q == p == [])
    ensures Blocked(m, p)
  {
    if q < p && Clear(m, p) {
      ClearPrefix(m, p, q);
    }
  }

  lemma NotBlocked<T>(m: PathMap<T>, p: Path)
    requires Clear(m, p) && (p == [] && [] in m ==> m[[]].dir)
    ensures !Blocked(m, p)
  {
  }

  lemma {:induction false} ClearWhenClosed<T>(m: PathMap<T>, p: Path)
    requires Closed(m) && p in m
    ensures Clear(m, p)
    decreases |p|
  {
    if p != [] {
      assert p == p[..|p| - 1] + [p[|p| - 1]];
      ClearWhenClosed(m, p[..|p| - 1]);
    }
  }

  lemma MkdirsStep<T>(m: PathMap<T>, p: Path, k: string, zero: T)
    requires Closed(m)
    ensures p + [k] in m <==> p + [k] in Mkdirs(m, p, zero)
    ensures p + [k] in m ==> p in m
    ensures Mkdirs(m, p + [k], zero) ==
            if p + [k] in m then Mkdirs(m, p, zero) else Mkdirs(m, p, zero)[p + [k] := Entry(true, zero)]
  {
    var l := Mkdirs(m, p + [k], zero);
    var r := if p + [k] in m then Mkdirs(m, p, zero) else Mkdirs(m, p, zero)[p + [k] := Entry(true, zero)];
    forall q ensures q in l <==> q in r {
      PrefixStep(q, p, k);
    }
  }

  lemma MkdirsHere<T>(m: PathMap<T>, p: Path, zero: T)
    requires forall q :: q <= p ==> q in m
    ensures Mkdirs(m, p, zero) == m
  {
  }

  lemma PrefixStep(q: Path, p: Path, k: string)
    ensures q <= p + [k] <==> q <= p || q == p + [k]
  {
    if q <= p + [k] && q != p + [k] {
      assert q == (p + [k])[..|q|];
      assert q == p[..|q|];
    }
    if q <= p {
      assert q == (p + [k])[..|q|];
    }
  }

  lemma {:induction false} ClosedUnderPrefix<T>(m: PathMap<T>, p: Path, q: Path)
    requires Closed(m) && p in m && q <= p
    ensures q in m && (q < p ==> m[q].dir)
    decreases |p|
  {
    if q < p {
      var n := |p| - 1;
      assert p == p[..n] + [p[n]];
      if q != p[..n] {
        assert q == p[..|q|] && |q| <= n;
        assert q == p[..n][..|q|];
        assert q < p[..n];
        ClosedUnderPrefix(m, p[..n], q);
      }
    } else {
      assert q == p;
    }
  }

  /** Putting a removed part back where it was gives the original tree. */
  lemma PutUndoesRemove<T>(m: PathMap<T>, p: Path, zero: T)
    requires Closed(m) && p in m && p != []
    ensures Put(Without(m, p), p, Sub(m, p), zero) == m
  {
    var up := p[..|p| - 1];
    ParentRemains(m, p);
    var r := Put(Without(m, p), p, Sub(m, p), zero);
    forall q ensures q in r <==> q in m {
      if p <= q {
        assert q == p + q[|p|..];
      } else if q <= up {
        ClosedUnderPrefix(m, up, q);
      }
    }
    forall q | q in m ensures r[q] == m[q] {
      if p <= q {
        assert q == p + q[|p|..];
      }
    }
  }

  /** Removing a node leaves its parent directory, and the way to it, in place. */
  lemma ParentRemains<T>(m: PathMap<T>, p: Path)
    requires Closed(m) && p in m && p != []
    ensures p[..|p| - 1] in Without(m, p) && Without(m, p)[p[..|p| - 1]].dir
    ensures Closed(Without(m, p)) && !Blocked(Without(m, p), p[..|p| - 1])
  {
    var up := p[..|p| - 1];
    var w := Without(m, p);
    assert p == up + [p[|p| - 1]];
    forall q: Path, k: string {:trigger q + [k]} | q + [k] in w ensures q in w && w[q].dir {
      PrefixStep(p, q, k);
    }
    ClearWhenClosed(w, up);
  }

  /** Removing what was just put gives the tree with only the directories made. */
  lemma RemoveUndoesPut<T>(m: PathMap<T>, p: Path, c: PathMap<T>, zero: T)
    requires Closed(m) && p != [] && p !in m
    ensures Without(Put(m, p, c, zero), p) == Mkdirs(m, p[..|p| - 1], zero)
    ensures Sub(Put(m, p, c, zero), p) == c
  {
    var up := p[..|p| - 1];
    var made := Mkdirs(m, up, zero);
    var r := Put(m, p, c, zero);
    forall q ensures q in Without(r, p) <==> q in made {
      if p <= q && q in made {
        if q in m {
          ClosedUnderPrefix(m, q, p);
        }
        assert false;
      }
    }
    forall q ensures q in Sub(r, p) <==> q in c {
      assert (p + q)[|p|..] == q && p <= p + q;
    }
    forall q | q in c ensures Sub(r, p)[q] == c[q] {
      assert (p + q)[|p|..] == q && p <= p + q;
    }
  }
}
