/** The part of a tree that a walk over some of a directory's entries covers. */
module Walks {
  import opened Trees
  import opened PathMaps
  import opened PathTree

  ghost function Below<V>(m: map<Path, V>, p: Path): (r: set<Path>)
    ensures forall q :: q in r <==> q in m && p <= q
  {
    set q | q in m && p <= q
  }

  /** Everything below `here` that lies in one of the named children. */
  ghost function BelowNamed<V>(at: map<Path, V>, here: Path, names: seq<string>): (r: set<Path>)
    ensures forall q :: q in r <==> q in at && here < q && q[|here|] in names
  {
    set q | q in at && here < q && q[|here|] in names
  }

  lemma BelowNamedStep<V>(at: map<Path, V>, here: Path, names: seq<string>, n: string)
    ensures BelowNamed(at, here, names + [n]) == BelowNamed(at, here, names) + Below(at, here + [n])
  {
    forall q ensures q in Below(at, here + [n]) <==> q in at && here < q && q[|here|] == n {
      if q in at && here < q && q[|here|] == n {
        assert q[..|here| + 1] == here + [n];
      }
      if here + [n] <= q {
        assert q[|here|] == (here + [n])[|here|];
        assert q[..|here|] == here;
      }
    }
  }

  lemma BelowNamedNext<V>(at: map<Path, V>, here: Path, names: seq<string>, i: nat)
    requires i < |names|
    ensures BelowNamed(at, here, names[..i + 1]) == BelowNamed(at, here, names[..i]) + Below(at, here + [names[i]])
  {
    assert names[..i + 1] == names[..i] + [names[i]];
    BelowNamedStep(at, here, names[..i], names[i]);
  }

  lemma BelowAll<T>(root: Node<T>, at: Layout<T>, cells: Cells<T>, here: Path, names: seq<string>)
    requires Linked(root, at, cells) && here in at
    requires forall k :: k in names <==> k in cells[here].Kids()
    ensures BelowNamed(at, here, names) + {here} == Below(at, here)
  {
    LinkedIsClosed(root, at, cells);
    forall q | q in at && here < q ensures q[|here|] in names {
      var step := q[..|here| + 1];
      assert step == here + [q[|here|]];
      ClosedUnderPrefix(Meaning(cells), q, step);
      ChildHere(root, at, cells, here, q[|here|]);
    }
    forall q ensures q in BelowNamed(at, here, names) + {here} <==> q in Below(at, here) {
      assert here <= q && !(here < q) ==> q == here;
    }
  }

  lemma CellAt<T>(at: Layout<T>, p: Path)
    requires p in at
    ensures CellsOf(at)[p] == Cell(at[p].Val, at[p].children)
  {
  }

  lemma KidsOf<T>(node: Node<T>, c: Cell<T>)
    requires node.children == c.children
    ensures node.Kids() == c.Kids()
  {
  }

  lemma SmallerThere<T>(at: Layout<T>, here: Path, name: string)
    requires here in at
    ensures Below(at, here + [name]) < Below(at, here)
  {
    SmallerBelow(at, here, name);
    assert Below(at, here + [name]) == (set q | q in at && here + [name] <= q)
        && Below(at, here) == (set q | q in at && here <= q);
  }
}
