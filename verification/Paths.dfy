/** Slash-separated paths, as `io/fs.ValidPath`, `strings.Cut` and `path.Join`
    treat them, and the list of names each valid path stands for. */
module Paths {
  import opened Trees

  predicate ValidName(n: string)
  {
    n != "" && n != "." && n != ".." && '/' !in n
  }

  ghost predicate ValidNames(es: Path)
  {
    forall e :: e in es ==> ValidName(e)
  }

  /** The text before the first slash, the text after it, and whether there is one. */
  function Cut(p: string): (r: (string, string, bool))
    ensures '/' !in r.0
    ensures r.2 ==> p == r.0 + "/" + r.1
    ensures !r.2 ==> p == r.0 && r.1 == ""
    decreases |p|
  {
    if p == "" then ("", "", false)
    else if p[0] == '/' then assert p == "/" + p[1..]; ("", p[1..], true)
    else
      var (first, rest, more) := Cut(p[1..]);
      assert p == [p[0]] + p[1..];
      ([p[0]] + first, rest, more)
  }

  function Split(p: string): (es: Path)
    ensures es != [] && forall e :: e in es ==> '/' !in e
    decreases |p|
  {
    var (first, rest, more) := Cut(p);
    if more then [first] + Split(rest) else [first]
  }

  /** The characters of the names are characters of the text. */
  lemma {:induction false} SplitAddsNothing(p: string, e: string, c: char)
    requires e in Split(p) && c in e
    ensures c in p
    decreases |p|
  {
    var (first, rest, more) := Cut(p);
    if more && e != first {
      assert Split(p)[1..] == Split(rest);
      SplitAddsNothing(rest, e, c);
    }
  }

  predicate ValidPath(p: string)
  {
    p == "." || forall i :: 0 <= i < |Split(p)| ==> ValidName(Split(p)[i])
  }

  /** The names along `p`; the path "." has none. */
  function Elems(p: string): (es: Path)
    ensures ValidPath(p) ==> ValidNames(es)
    ensures if p == "." then es == [] else es == Split(p) && es != []
  {
    if p == "." then [] else Split(p)
  }

  /** Somewhere between two slashes, or an end of the text and a slash, `p` reads `e`. */
  ghost predicate HasElement(p: string, e: string)
  {
    exists i :: 0 <= i <= |p| + 2 && "/" + e + "/" <= ("/" + p + "/")[i..]
  }

  /** The elements of a text are its first name and those of the rest. */
  lemma ElementsCut(p: string, e: string)
    requires '/' !in e
    ensures var (first, rest, more) := Cut(p);
            HasElement(p, e) <==> e == first || (more && HasElement(rest, e))
  {
    hide HasElement;
    var (first, rest, more) := Cut(p);
    var tail := if more then "/" + rest + "/" else "/";
    assert "/" + p + "/" == "/" + first + tail;
    if HasElement(p, e) {
      FirstOrRest(p, first, tail, e);
    }
    if e == first || ReadsIn(tail, e) {
      FoundInWhole(p, first, tail, e);
    }
    if more {
      ElementIsRead(rest, e);
    } else {
      TooShort(e);
    }
  }

  ghost predicate ReadsIn(q: string, e: string)
  {
    exists i :: 0 <= i <= |q| && "/" + e + "/" <= q[i..]
  }

  lemma ElementIsRead(p: string, e: string)
    ensures HasElement(p, e) <==> ReadsIn("/" + p + "/", e)
  {
    assert |"/" + p + "/"| == |p| + 2;
  }

  lemma TooShort(e: string)
    ensures !ReadsIn("/", e)
  {
    assert |"/" + e + "/"| >= 2;
  }

  lemma FirstOrRest(p: string, first: string, tail: string, e: string)
    requires '/' !in e && '/' !in first && tail != "" && tail[0] == '/' && "/" + p + "/" == "/" + first + tail
    requires HasElement(p, e)
    ensures e == first || ReadsIn(tail, e)
  {
    var q := "/" + first + tail;
    var i :| 0 <= i <= |p| + 2 && "/" + e + "/" <= q[i..];
    if i == 0 {
      assert q[0..] == q;
      AtStart(first, tail, e);
    } else {
      SlashAt(q, i, e);
      assert forall k :: 0 < k <= |first| ==> q[k] == first[k - 1];
      assert q[i..] == tail[i - |first| - 1..];
    }
  }

  lemma FoundInWhole(p: string, first: string, tail: string, e: string)
    requires '/' !in e && '/' !in first && tail != "" && tail[0] == '/' && "/" + p + "/" == "/" + first + tail
    requires e == first || ReadsIn(tail, e)
    ensures HasElement(p, e)
  {
    var q := "/" + first + tail;
    if e == first {
      AtStart(first, tail, e);
      assert q[0..] == q;
    } else {
      var j :| 0 <= j <= |tail| && "/" + e + "/" <= tail[j..];
      assert q[|first| + 1 + j..] == tail[j..];
    }
  }

  lemma SlashAt(q: string, i: nat, e: string)
    requires i <= |q| && "/" + e + "/" <= q[i..]
    ensures i < |q| && q[i] == '/'
  {
    assert ("/" + e + "/")[0] == q[i..][0];
  }

  lemma AtStart(first: string, tail: string, e: string)
    requires '/' !in e && '/' !in first && tail != "" && tail[0] == '/'
    ensures "/" + e + "/" <= "/" + first + tail <==> e == first
  {
    var q, a := "/" + first + tail, "/" + e + "/";
    assert forall k :: 0 <= k < |first| ==> q[k + 1] == first[k];
    assert q[|first| + 1] == '/' && a[|e| + 1] == '/';
    assert forall k :: 0 <= k < |e| ==> a[k + 1] == e[k];
    if a <= q {
      assert forall k :: 0 <= k < |a| ==> a[k] == q[k];
      if |e| != |first| {
        assert false;
      }
      assert forall k :: 0 <= k < |e| ==> e[k] == a[k + 1] == q[k + 1] == first[k];
    }
  }

  lemma {:induction false} SplitMeaning(p: string, e: string)
    requires '/' !in e
    ensures e in Split(p) <==> HasElement(p, e)
    decreases |p|
  {
    hide HasElement;
    var (first, rest, more) := Cut(p);
    ElementsCut(p, e);
    if more {
      SplitMeaning(rest, e);
    }
  }

  /** Valid are "." and the texts with no empty name, no "." and no ".." between slashes. */
  lemma ValidPathMeaning(p: string)
    ensures ValidPath(p) <==>
            p == "." || (!HasElement(p, "") && !HasElement(p, ".") && !HasElement(p, ".."))
  {
    hide HasElement, Split;
    SplitMeaning(p, "");
    SplitMeaning(p, ".");
    SplitMeaning(p, "..");
    assert forall i :: 0 <= i < |Split(p)| ==> Split(p)[i] in Split(p);
  }

  /** The text of a list of names, as `path.Join` writes it. */
  function Text(es: Path): string
  {
    if es == [] then "."
    else if |es| == 1 then es[0]
    else es[0] + "/" + Text(es[1..])
  }

  function DirName(p: string): string
    requires p != "."
  {
    var es := Elems(p);
    Text(es[..|es| - 1])
  }

  function BaseName(p: string): string
    requires p != "."
  {
    var es := Elems(p);
    es[|es| - 1]
  }

  lemma {:induction false} CutText(a: string, b: string)
    requires '/' !in a
    ensures Cut(a) == (a, "", false)
    ensures Cut(a + "/" + b) == (a, b, true)
    decreases |a|
  {
    if a == "" {
      assert a + "/" + b == "/" + b;
      assert ("/" + b)[1..] == b;
    } else {
      CutText(a[1..], b);
      assert (a + "/" + b)[1..] == a[1..] + "/" + b;
      assert a == [a[0]] + a[1..];
    }
  }

  lemma {:induction false} SplitText(es: Path)
    requires es != [] && forall e :: e in es ==> '/' !in e
    ensures Split(Text(es)) == es
    decreases |es|
  {
    if |es| == 1 {
      CutText(es[0], "");
    } else {
      CutText(es[0], Text(es[1..]));
      assert forall e :: e in es[1..] ==> e in es;
      SplitText(es[1..]);
    }
  }

  /** One turn of a loop that cuts names off the front of a path. */
  lemma CutStep(done: Path, rest: string, all: Path)
    requires done + Split(rest) == all
    ensures var (first, tail, more) := Cut(rest);
            && done + [first] <= all && done < all
            && (more ==> done + [first] + Split(tail) == all)
            && (!more ==> done + [first] == all)
  {
    var (first, tail, more) := Cut(rest);
    assert Split(rest) == if more then [first] + Split(tail) else [first];
    if more {
      assert done + ([first] + Split(tail)) == done + [first] + Split(tail);
    }
  }

  lemma {:induction false} TextSplit(p: string)
    ensures Text(Split(p)) == p
    decreases |p|
  {
    var (first, rest, more) := Cut(p);
    if more {
      TextSplit(rest);
      assert Split(p)[1..] == Split(rest);
    }
  }

  /** Valid paths and lists of valid names are in one-to-one correspondence. */
  lemma ElemsOfText(es: Path)
    requires ValidNames(es)
    ensures ValidPath(Text(es)) && Elems(Text(es)) == es
  {
    if es != [] {
      SplitText(es);
      assert es[0] in es;
      if Text(es) == "." {
        CutText(".", "");
        assert false;
      }
    }
  }

  lemma TextOfElems(p: string)
    ensures Text(Elems(p)) == p
  {
    TextSplit(p);
  }

  lemma DirAndBase(p: string)
    requires ValidPath(p) && p != "."
    ensures ValidPath(DirName(p)) && ValidName(BaseName(p))
    ensures Elems(p) == Elems(DirName(p)) + [BaseName(p)]
  {
    var es := Elems(p);
    assert ValidNames(es[..|es| - 1]);
    ElemsOfText(es[..|es| - 1]);
    assert es == es[..|es| - 1] + [es[|es| - 1]];
  }

  lemma {:induction false} TextAppend(a: Path, b: Path)
    requires a != [] && b != []
    ensures Text(a + b) == Text(a) + "/" + Text(b)
    decreases |a|
  {
    if |a| == 1 {
      assert (a + b)[1..] == b;
    } else {
      assert (a + b)[1..] == a[1..] + b;
      TextAppend(a[1..], b);
      assert Text(a + b) == a[0] + "/" + (Text(a[1..]) + "/" + Text(b));
    }
  }

  lemma TextIsInjective(a: Path, b: Path)
    requires ValidNames(a) && ValidNames(b) && Text(a) == Text(b)
    ensures a == b
  {
    ElemsOfText(a);
    ElemsOfText(b);
  }
}
