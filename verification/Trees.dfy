/** The value of a version state: files labelled with a digest, directories
    mapping names to subtrees. Everything the index stores about a version is
    a statement about one of these values. */
module Trees {
  newtype byte = x: int | 0 <= x < 256
  type Sum = seq<byte>
  type Path = seq<string>

  datatype Option<+T> = None | Some(value: T)

  datatype Tree = File(sum: Sum) | Dir(children: map<string, Tree>)

  /** The subtree that `p` leads to. */
  function Get(t: Tree, p: Path): (r: Option<Tree>)
    decreases |p|
  {
    if p == [] then Some(t)
    else if t.Dir? && p[0] in t.children then Get(t.children[p[0]], p[1..])
    else None
  }

  lemma {:induction false} GetAppend(t: Tree, p: Path, q: Path)
    ensures Get(t, p + q) == (if Get(t, p).Some? then Get(Get(t, p).value, q) else None)
    decreases |p|
  {
    if p == [] {
      assert p + q == q;
    } else if t.Dir? && p[0] in t.children {
      assert (p + q)[1..] == p[1..] + q;
      GetAppend(t.children[p[0]], p[1..], q);
    }
  }

  lemma GetChild(t: Tree, p: Path, name: string)
    ensures Get(t, p + [name]) ==
            match Get(t, p)
            case Some(Dir(children)) => if name in children then Some(children[name]) else None
            case _ => None
  {
    GetAppend(t, p, [name]);
    if Get(t, p).Some? {
      var d := Get(t, p).value;
      assert [name][1..] == [];
    }
  }

  /** No tree occurs strictly inside itself. This is what lets the index stop
      at an existing row: the row cannot be one that is still being filled. */
  lemma {:induction false} NeverInsideItself(t: Tree, p: Path)
    requires p != []
    ensures Get(t, p) != Some(t)
    decreases t
  {
    if Get(t, p) == Some(t) {
      var c := t.children[p[0]];
      GetAppend(c, p[1..], [p[0]]);
      NeverInsideItself(c, p[1..] + [p[0]]);
    }
  }

  /** `t` occurs strictly inside `outer`. */
  ghost predicate Inside(t: Tree, outer: Tree)
  {
    exists p :: p != [] && Get(outer, p) == Some(t)
  }

  lemma InsideIsDeeper(child: Tree, name: string, t: Tree, outer: Tree)
    requires t.Dir? && name in t.children && t.children[name] == child
    requires t == outer || Inside(t, outer)
    ensures Inside(child, outer)
  {
    var p: Path := [];
    if t != outer {
      p :| p != [] && Get(outer, p) == Some(t);
    }
    GetChild(outer, p, name);
    assert Get(outer, p + [name]) == Some(child);
  }

  /** Every name anywhere in the tree satisfies `ok`. */
  ghost predicate AllNames(t: Tree, ok: string -> bool)
    decreases t
  {
    t.Dir? ==> forall n :: n in t.children ==> ok(n) && AllNames(t.children[n], ok)
  }

  lemma {:induction false} AllNamesBelow(t: Tree, ok: string -> bool, p: Path)
    requires AllNames(t, ok) && Get(t, p).Some?
    ensures AllNames(Get(t, p).value, ok)
    ensures forall i :: 0 <= i < |p| ==> ok(p[i])
    decreases |p|
  {
    if p != [] {
      AllNamesBelow(t.children[p[0]], ok, p[1..]);
      assert forall i :: 1 <= i < |p| ==> p[i] == p[1..][i - 1];
    }
  }
}
