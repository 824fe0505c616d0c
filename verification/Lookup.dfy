/** The two recursive queries over the names table: finding the row that a
    path leads to, and listing everything below a row. */
module Lookup {
  import opened Trees
  import opened Paths
  import opened Digests
  import opened Merkle

  // ----- walking the graph -----

  /** The row reached from `id` by following names one edge at a time. */
  function Follow(names: Names, id: Id, es: Path): Option<Id>
    decreases |es|
  {
    if es == [] then Some(id)
    else if Edge(id, es[0]) in names then Follow(names, names[Edge(id, es[0])], es[1..])
    else None
  }

  /** Walking edges is walking the tree that the first row stands for. */
  lemma {:induction false} FollowIsGet(h: Hash, nodes: Nodes, names: Names, den: Meanings, id: Id, es: Path)
    requires Graph(h, nodes, names, den, {}) && id in den
    ensures var r := Follow(names, id, es);
            if r.Some? then r.value in den && Get(den[id], es) == Some(den[r.value]) else Get(den[id], es) == None
    decreases |es|
  {
    hide KeyOf, Storable;
    if es != [] {
      var e := Edge(id, es[0]);
      assert Complete(names, den, id);
      if e in names {
        assert e.parent == id && e.name == es[0];
        FollowIsGet(h, nodes, names, den, names[e], es[1..]);
      }
    }
  }

  lemma {:induction false} FollowAppend(names: Names, id: Id, es: Path, n: string)
    ensures Follow(names, id, es + [n]) ==
            var r := Follow(names, id, es);
            if r.Some? && Edge(r.value, n) in names then Some(names[Edge(r.value, n)]) else None
    decreases |es|
  {
    if es == [] {
      assert (es + [n])[1..] == [];
    } else {
      assert (es + [n])[1..] == es[1..] + [n];
      if Edge(id, es[0]) in names {
        FollowAppend(names, names[Edge(id, es[0])], es[1..], n);
      }
    }
  }

  lemma EdgeNameIsValid(h: Hash, nodes: Nodes, names: Names, den: Meanings, e: Edge)
    requires Graph(h, nodes, names, den, {}) && e in names
    ensures ValidName(e.name) && e.parent in den && names[e] in den
  {
    hide KeyOf, PlainNames, ValidName;
    assert AllNames(den[e.parent], ValidName);
  }

  /** Paths in a tree have bounded length. */
  lemma {:induction false} Depth(t: Tree) returns (bound: nat)
    ensures forall p :: Get(t, p).Some? ==> |p| <= bound
    decreases t, 1
  {
    bound := 0;
    if t.Dir? {
      var below := DepthBelow(t, t.children.Keys);
      bound := below + 1;
      forall p | Get(t, p).Some? ensures |p| <= bound {
        if p != [] {
          assert Get(t.children[p[0]], p[1..]).Some?;
        }
      }
    }
  }

  lemma {:induction false} DepthBelow(t: Tree, ns: set<string>) returns (bound: nat)
    requires t.Dir? && ns <= t.children.Keys
    ensures forall n, p :: n in ns && Get(t.children[n], p).Some? ==> |p| <= bound
    decreases t, 0, |ns|
  {
    bound := 0;
    if ns != {} {
      var n :| n in ns;
      var rest := DepthBelow(t, ns - {n});
      var here := Depth(t.children[n]);
      bound := if rest < here then here else rest;
    }
  }

  // ----- LIKE -----

  /** SQL's `s LIKE pattern`, case-sensitive: `%` stands for any text and `_` for any character. */
  predicate Like(s: string, pattern: string)
    decreases |s| + |pattern|
  {
    if pattern == "" then s == ""
    else if pattern[0] == '%' then Like(s, pattern[1..]) || (s != "" && Like(s[1..], pattern))
    else s != "" && (pattern[0] == '_' || pattern[0] == s[0]) && Like(s[1..], pattern[1..])
  }

  lemma {:induction false} LikeAnything(s: string)
    ensures Like(s, "%")
    decreases |s|
  {
    if s == "" {
      assert "%"[1..] == "";
    } else {
      LikeAnything(s[1..]);
    }
  }

  /** A text is like itself followed by `%`, whatever wildcards it holds. */
  lemma {:induction false} LikeItself(x: string, rest: string)
    ensures Like(x + rest, x + "%")
    decreases |x|
  {
    if x == "" {
      assert x + rest == rest && x + "%" == "%";
      LikeAnything(rest);
    } else {
      LikeItself(x[1..], rest);
      var s, pattern := x + rest, x + "%";
      assert s[1..] == x[1..] + rest && pattern[1..] == x[1..] + "%";
      if x[0] == '%' {
        assert Like(s[1..], pattern[1..]) ==> Like(s[1..], pattern);
      }
    }
  }

  /** Without wildcards in `x` only the texts that begin with it are like `x%`. */
  lemma {:induction false} LikeMeaning(s: string, x: string)
    requires '%' !in x && '_' !in x
    ensures Like(s, x + "%") <==> x <= s
    decreases |x|
  {
    var pattern := x + "%";
    if x == "" {
      assert pattern == "%";
      LikeAnything(s);
    } else {
      assert pattern[0] == x[0] && pattern[1..] == x[1..] + "%";
      if s != "" {
        LikeMeaning(s[1..], x[1..]);
        assert x == [x[0]] + x[1..] && s == [s[0]] + s[1..];
      }
    }
  }

  // ----- the rows of the recursive queries -----

  /** A row reached, and the text of the path that led there. */
  datatype Row = Row(id: Id, path: string)

  /** `COALESCE(NULLIF(path || '/', './'), '') || name` */
  function NextPath(path: string, name: string): string
  {
    (if path + "/" == "./" then "" else path + "/") + name
  }

  /** Whether the search for `target` goes on through `next`. */
  predicate Keeps(target: string, next: string)
  {
    target == next || Like(target, next + "/" + "%")
  }

  function StepTowards(names: Names, rows: set<Row>, target: string): set<Row>
  {
    set e, r | e in names && r in rows && e.parent == r.id && Keeps(target, NextPath(r.path, e.name))
      :: Row(names[e], NextPath(r.path, e.name))
  }

  function StepBelow(names: Names, rows: set<Row>): set<Row>
  {
    set e, r | e in names && r in rows && e.parent == r.id :: Row(names[e], r.path + "/" + e.name)
  }

  function ChildRows(names: Names, base: Id): set<Row>
  {
    set e | e in names && e.parent == base :: Row(names[e], e.name)
  }

  /** The walk along `es` leads to this row. */
  ghost predicate LeadsTo(names: Names, start: Id, es: Path, row: Row)
  {
    ValidNames(es) && Follow(names, start, es) == Some(row.id) && row.path == Text(es)
  }

  ghost predicate At(names: Names, start: Id, depth: nat, row: Row)
  {
    exists es :: |es| == depth && LeadsTo(names, start, es, row)
  }

  lemma NextText(es: Path, n: string)
    requires ValidNames(es) && ValidName(n)
    ensures ValidNames(es + [n]) && NextPath(Text(es), n) == Text(es + [n])
    ensures es != [] ==> Text(es) + "/" + n == Text(es + [n])
  {
    ElemsOfText(es);
    if es == [] {
      assert es + [n] == [n];
    } else {
      assert Text([n]) == n;
      TextAppend(es, [n]);
      assert (Text(es) + "/")[..|Text(es)|] == Text(es) && "./"[..1] == ".";
    }
  }

  lemma StepLeads(h: Hash, nodes: Nodes, names: Names, den: Meanings, start: Id, depth: nat, r: Row, e: Edge)
    requires Graph(h, nodes, names, den, {}) && e in names && e.parent == r.id && At(names, start, depth, r)
    ensures At(names, start, depth + 1, Row(names[e], NextPath(r.path, e.name)))
    ensures depth > 0 ==> r.path + "/" + e.name == NextPath(r.path, e.name)
  {
    hide Graph, Follow, Text, NextPath;
    var es :| |es| == depth && LeadsTo(names, start, es, r);
    EdgeNameIsValid(h, nodes, names, den, e);
    NextText(es, e.name);
    FollowAppend(names, start, es, e.name);
    assert e == Edge(r.id, e.name);
    assert LeadsTo(names, start, es + [e.name], Row(names[e], NextPath(r.path, e.name)));
  }

  lemma NotTooDeep(h: Hash, nodes: Nodes, names: Names, den: Meanings, start: Id, depth: nat, r: Row, bound: nat)
    requires Graph(h, nodes, names, den, {}) && start in den && At(names, start, depth, r)
    requires forall p :: Get(den[start], p).Some? ==> |p| <= bound
    ensures depth <= bound
  {
    hide Graph;
    var es :| |es| == depth && LeadsTo(names, start, es, r);
    FollowIsGet(h, nodes, names, den, start, es);
  }

  // ----- finding the row that a path leads to -----

  /** On the way to `target`, nothing is pruned. */
  lemma KeepsTheWay(all: Path, k: nat)
    requires ValidNames(all) && 0 < k <= |all|
    ensures Keeps(Text(all), Text(all[..k]))
  {
    if k == |all| {
      assert all[..k] == all;
    } else {
      var here := Text(all[..k]);
      assert all == all[..k] + all[k..];
      TextAppend(all[..k], all[k..]);
      LikeItself(here + "/", Text(all[k..]));
    }
  }

  /** Without wildcards on the way, only what the target is or lies below is kept. */
  lemma KeepsMeaning(target: string, next: string)
    requires '%' !in next && '_' !in next
    ensures Keeps(target, next) <==> target == next || next + "/" <= target
  {
    hide Like;
    LikeMeaning(target, next + "/");
  }

  /** Rows whose steps have been taken have all their successors among `seen`. */
  ghost predicate Expanded(names: Names, target: string, seen: set<Row>, level: set<Row>)
  {
    forall r :: r in seen && r !in level ==> StepTowards(names, {r}, target) <= seen
  }

  lemma {:induction false} WayIsSeen(h: Hash, nodes: Nodes, names: Names, den: Meanings, start: Id, all: Path, k: nat,
                                     seen: set<Row>)
    requires Graph(h, nodes, names, den, {}) && Row(start, ".") in seen && Expanded(names, Text(all), seen, {})
    requires ValidNames(all) && k <= |all| && Follow(names, start, all[..k]).Some?
    ensures Row(Follow(names, start, all[..k]).value, Text(all[..k])) in seen
    decreases k
  {
    hide Graph, NextPath, Keeps, Text, Follow;
    if k == 0 {
      assert all[..0] == [];
      NoSteps(names, start);
    } else {
      assert all[..k] == all[..k - 1] + [all[k - 1]];
      assert ValidName(all[k - 1]);
      FollowAppend(names, start, all[..k - 1], all[k - 1]);
      WayIsSeen(h, nodes, names, den, start, all, k - 1, seen);
      NextText(all[..k - 1], all[k - 1]);
      KeepsTheWay(all, k);
      var r := Row(Follow(names, start, all[..k - 1]).value, Text(all[..k - 1]));
      var e := Edge(r.id, all[k - 1]);
      assert Row(names[e], NextPath(r.path, e.name)) in StepTowards(names, {r}, Text(all));
    }
  }

  lemma NoSteps(names: Names, start: Id)
    ensures Follow(names, start, []) == Some(start) && Text([]) == "."
  {
  }

  /** The lookup query. Although it prunes with `LIKE`, in which `%` and `_` of
      names are wildcards, it finds exactly the row that the names along the
      path lead to. */
  method FindNode(names: Names, start: Id, target: string, ghost h: Hash, ghost nodes: Nodes, ghost den: Meanings)
      returns (r: Option<Id>)
    requires Graph(h, nodes, names, den, {}) && start in den && ValidPath(target)
    ensures r == Follow(names, start, Elems(target))
    ensures if r.Some? then r.value in den && Get(den[start], Elems(target)) == Some(den[r.value])
            else Get(den[start], Elems(target)) == None
  {
    hide Graph, Follow, Keeps, StepTowards, Expanded, NextPath, ValidPath, Text, ValidName, ValidNames;
    var level, seen := {Row(start, ".")}, {Row(start, ".")};
    ghost var bound := Depth(den[start]);
    ghost var depth := 0;
    FirstRow(names, start, target);
    while level != {}
      invariant level <= seen && Row(start, ".") in seen && depth <= bound + 1
      invariant level != {} ==> depth <= bound
      invariant forall r :: r in level ==> At(names, start, depth, r)
      invariant forall r :: r in seen ==> exists d :: At(names, start, d, r)
      invariant Expanded(names, target, seen, level)
      decreases bound + 1 - depth
    {
      var next := StepTowards(names, level, target);
      OneLevelDown(h, nodes, names, den, start, target, depth, level, seen, bound);
      level, seen, depth := next - seen, seen + next, depth + 1;
    }
    FollowIsGet(h, nodes, names, den, start, Elems(target));
    AllSeen(h, nodes, names, den, start, target, seen);
    if row :| row in seen && row.path == target {
      r := Some(row.id);
    } else {
      r := None;
    }
  }

  lemma FirstRow(names: Names, start: Id, target: string)
    ensures At(names, start, 0, Row(start, "."))
    ensures Expanded(names, target, {Row(start, ".")}, {Row(start, ".")})
  {
    NoSteps(names, start);
    assert LeadsTo(names, start, [], Row(start, "."));
  }

  lemma OneLevelDown(h: Hash, nodes: Nodes, names: Names, den: Meanings, start: Id, target: string, depth: nat,
                     level: set<Row>, seen: set<Row>, bound: nat)
    requires Graph(h, nodes, names, den, {}) && start in den && level <= seen
    requires forall r :: r in level ==> At(names, start, depth, r)
    requires Expanded(names, target, seen, level)
    requires forall p :: Get(den[start], p).Some? ==> |p| <= bound
    ensures var next := StepTowards(names, level, target);
            && (forall r :: r in next ==> At(names, start, depth + 1, r))
            && (next - seen != {} ==> depth + 1 <= bound)
            && Expanded(names, target, seen + next, next - seen)
  {
    hide Graph, At, NextPath, Keeps;
    var next := StepTowards(names, level, target);
    forall row | row in next ensures At(names, start, depth + 1, row) && depth + 1 <= bound {
      var e, r :| e in names && r in level && e.parent == r.id && row == Row(names[e], NextPath(r.path, e.name));
      StepLeads(h, nodes, names, den, start, depth, r, e);
      NotTooDeep(h, nodes, names, den, start, depth + 1, row, bound);
    }
    forall r | r in seen + next && r !in next - seen ensures StepTowards(names, {r}, target) <= seen + next {
      if r in level {
        assert StepTowards(names, {r}, target) <= next;
      }
    }
    if next - seen != {} {
      var row :| row in next - seen;
      assert row in next;
    }
  }

  lemma AllSeen(h: Hash, nodes: Nodes, names: Names, den: Meanings, start: Id, target: string, seen: set<Row>)
    requires Graph(h, nodes, names, den, {}) && ValidPath(target)
    requires Row(start, ".") in seen && Expanded(names, target, seen, {})
    requires forall r :: r in seen ==> exists d :: At(names, start, d, r)
    ensures forall row :: row in seen && row.path == target ==> Follow(names, start, Elems(target)) == Some(row.id)
    ensures Follow(names, start, Elems(target)).Some? ==>
              Row(Follow(names, start, Elems(target)).value, target) in seen
  {
    hide Graph, Follow, Text, Expanded;
    var all := Elems(target);
    TextOfElems(target);
    forall row | row in seen && row.path == target ensures Follow(names, start, all) == Some(row.id) {
      var d :| At(names, start, d, row);
      var es :| |es| == d && LeadsTo(names, start, es, row);
      TextIsInjective(es, all);
    }
    assert all[..|all|] == all;
    if Follow(names, start, all).Some? {
      WayIsSeen(h, nodes, names, den, start, all, |all|, seen);
    }
  }

  // ----- listing everything below a row -----

  /** The rows below `base`, at any depth: each once, under its path from `base`. */
  ghost predicate AllBelow(names: Names, base: Id, rows: set<Row>)
  {
    && (forall r :: r in rows ==> exists d :: d > 0 && At(names, base, d, r))
    && (forall es, r :: es != [] && LeadsTo(names, base, es, r) ==> r in rows)
  }

  ghost predicate ExpandedBelow(names: Names, seen: set<Row>, level: set<Row>)
  {
    forall r :: r in seen && r !in level ==> StepBelow(names, {r}) <= seen
  }

  /** The listing query, before its filter, order and limit. */
  method ListBelow(names: Names, base: Id, ghost h: Hash, ghost nodes: Nodes, ghost den: Meanings)
    returns (seen: set<Row>)
    requires Graph(h, nodes, names, den, {}) && base in den
    ensures AllBelow(names, base, seen)
  {
    hide Graph, Follow, StepBelow, ExpandedBelow, Text, ValidName, ValidNames, At, AllBelow;
    var level := ChildRows(names, base);
    seen := level;
    ghost var bound := Depth(den[base]);
    ghost var depth := 1;
    FirstRows(h, nodes, names, den, base, bound);
    while level != {}
      invariant level <= seen && ChildRows(names, base) <= seen && 0 < depth <= bound + 1
      invariant level != {} ==> depth <= bound
      invariant forall r :: r in level ==> At(names, base, depth, r)
      invariant forall r :: r in seen ==> exists d :: d > 0 && At(names, base, d, r)
      invariant ExpandedBelow(names, seen, level)
      decreases bound + 1 - depth
    {
      var next := StepBelow(names, level);
      OneLevelBelow(h, nodes, names, den, base, depth, level, seen, bound);
      level, seen, depth := next - seen, seen + next, depth + 1;
    }
    AllFound(h, nodes, names, den, base, seen);
  }

  lemma FirstRows(h: Hash, nodes: Nodes, names: Names, den: Meanings, base: Id, bound: nat)
    requires Graph(h, nodes, names, den, {}) && base in den
    requires forall p :: Get(den[base], p).Some? ==> |p| <= bound
    ensures var rows := ChildRows(names, base);
            && (forall r :: r in rows ==> At(names, base, 1, r) && bound >= 1)
            && ExpandedBelow(names, rows, rows)
  {
    hide Graph, Follow, Text, ValidName;
    forall row | row in ChildRows(names, base) ensures At(names, base, 1, row) && bound >= 1 {
      var e :| e in names && e.parent == base && row == Row(names[e], e.name);
      EdgeNameIsValid(h, nodes, names, den, e);
      NoSteps(names, base);
      FollowAppend(names, base, [], e.name);
      NextText([], e.name);
      NameIsText(e.name);
      assert e == Edge(base, e.name);
      assert LeadsTo(names, base, [] + [e.name], row);
      NotTooDeep(h, nodes, names, den, base, 1, row, bound);
    }
  }

  lemma OneLevelBelow(h: Hash, nodes: Nodes, names: Names, den: Meanings, base: Id, depth: nat,
                      level: set<Row>, seen: set<Row>, bound: nat)
    requires Graph(h, nodes, names, den, {}) && base in den && level <= seen && depth > 0
    requires forall r :: r in level ==> At(names, base, depth, r)
    requires ExpandedBelow(names, seen, level)
    requires forall p :: Get(den[base], p).Some? ==> |p| <= bound
    ensures var next := StepBelow(names, level);
            && (forall r :: r in next ==> At(names, base, depth + 1, r))
            && (next - seen != {} ==> depth + 1 <= bound)
            && ExpandedBelow(names, seen + next, next - seen)
  {
    hide Graph, At;
    var next := StepBelow(names, level);
    forall row | row in next ensures At(names, base, depth + 1, row) && depth + 1 <= bound {
      var e, r :| e in names && r in level && e.parent == r.id && row == Row(names[e], r.path + "/" + e.name);
      StepLeads(h, nodes, names, den, base, depth, r, e);
      NotTooDeep(h, nodes, names, den, base, depth + 1, row, bound);
    }
    forall r | r in seen + next && r !in next - seen ensures StepBelow(names, {r}) <= seen + next {
      if r in level {
        assert StepBelow(names, {r}) <= next;
      }
    }
    if next - seen != {} {
      var row :| row in next - seen;
      assert row in next;
    }
  }

  lemma AllFound(h: Hash, nodes: Nodes, names: Names, den: Meanings, base: Id, seen: set<Row>)
    requires Graph(h, nodes, names, den, {}) && ChildRows(names, base) <= seen && ExpandedBelow(names, seen, {})
    requires forall r :: r in seen ==> exists d :: d > 0 && At(names, base, d, r)
    ensures AllBelow(names, base, seen)
  {
    hide Graph, ExpandedBelow, At;
    forall es, r | es != [] && LeadsTo(names, base, es, r) ensures r in seen {
      FoundAlong(names, base, es, r, seen);
    }
  }

  lemma {:induction false} FoundAlong(names: Names, base: Id, es: Path, r: Row, seen: set<Row>)
    requires ChildRows(names, base) <= seen && ExpandedBelow(names, seen, {})
    requires es != [] && LeadsTo(names, base, es, r)
    ensures r in seen
    decreases |es|
  {
    hide Follow, Text, ValidName;
    var up, n := es[..|es| - 1], es[|es| - 1];
    assert es == up + [n] && ValidNames(up) && n in es;
    FollowAppend(names, base, up, n);
    NextText(up, n);
    if up == [] {
      NoSteps(names, base);
      NameIsText(n);
      assert Edge(base, n) in names && r == Row(names[Edge(base, n)], n);
    } else {
      var above := Row(Follow(names, base, up).value, Text(up));
      FoundAlong(names, base, up, above, seen);
      assert r == Row(names[Edge(above.id, n)], above.path + "/" + n);
      assert r in StepBelow(names, {above});
    }
  }

  lemma NameIsText(n: string)
    ensures Text([] + [n]) == n
  {
    assert [] + [n] == [n];
  }
}
