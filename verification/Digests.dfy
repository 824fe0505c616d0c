/** Recursive directory digests: the listing that is hashed, why it can be
    read back in only one way, and when equal digests mean equal trees. */
module Digests {
  import opened Trees
  import opened Ordering
  import opened Paths

  type Hash = string -> Sum

  ghost predicate CollisionFree(h: Hash)
  {
    forall a, b :: h(a) == h(b) ==> a == b
  }

  const HEX_DIGITS := "0123456789abcdef"

  function Hex(s: Sum): string
  {
    if s == [] then ""
    else [HEX_DIGITS[s[0] as int / 16], HEX_DIGITS[s[0] as int % 16]] + Hex(s[1..])
  }

  /** The lower-case hexadecimal digit for `d`, by its place among the characters. */
  predicate IsHexDigit(c: char, d: int)
  {
    if 0 <= d < 10 then c as int == '0' as int + d else 10 <= d < 16 && c as int == 'a' as int + (d - 10)
  }

  lemma DigitMeaning(d: nat)
    requires d < 16
    ensures IsHexDigit(HEX_DIGITS[d], d)
  {
  }

  /** Two digits for each byte: first its upper half, then its lower half. */
  lemma {:induction false} HexMeaning(s: Sum)
    ensures |Hex(s)| == 2 * |s|
    ensures forall i :: 0 <= i < |s| ==>
              IsHexDigit(Hex(s)[2 * i], s[i] as int / 16) && IsHexDigit(Hex(s)[2 * i + 1], s[i] as int % 16)
    decreases |s|
  {
    if s != [] {
      hide HEX_DIGITS, IsHexDigit;
      DigitMeaning(s[0] as int / 16);
      DigitMeaning(s[0] as int % 16);
      HexMeaning(s[1..]);
      var rest := Hex(s[1..]);
      forall i | 0 <= i < |s|
        ensures IsHexDigit(Hex(s)[2 * i], s[i] as int / 16) && IsHexDigit(Hex(s)[2 * i + 1], s[i] as int % 16)
      {
        if i > 0 {
          assert s[1..][i - 1] == s[i];
          assert Hex(s)[2 * i] == rest[2 * (i - 1)] && Hex(s)[2 * i + 1] == rest[2 * (i - 1) + 1];
        }
      }
    }
  }

  lemma HexDigitsAreDistinct(i: nat, j: nat)
    requires i < 16 && j < 16 && HEX_DIGITS[i] == HEX_DIGITS[j]
    ensures i == j
  {
  }

  lemma DigitIsNoSpace(i: nat)
    requires i < 16
    ensures HEX_DIGITS[i] != ' ' && HEX_DIGITS[i] != '\n'
  {
  }

  lemma {:induction false} HexHasNoSpace(s: Sum)
    ensures ' ' !in Hex(s) && '\n' !in Hex(s)
    decreases |s|
  {
    if s != [] {
      hide HEX_DIGITS;
      DigitIsNoSpace(s[0] as int / 16);
      DigitIsNoSpace(s[0] as int % 16);
      HexHasNoSpace(s[1..]);
    }
  }

  lemma {:induction false} HexIsInjective(a: Sum, b: Sum)
    requires Hex(a) == Hex(b)
    ensures a == b
    decreases |a|
  {
    if a != [] && b != [] {
      var x, y := Hex(a), Hex(b);
      assert x[0] == y[0] && x[1] == y[1];
      HexDigitsAreDistinct(a[0] as int / 16, b[0] as int / 16);
      HexDigitsAreDistinct(a[0] as int % 16, b[0] as int % 16);
      assert x[2..] == Hex(a[1..]) && y[2..] == Hex(b[1..]);
      HexIsInjective(a[1..], b[1..]);
      assert a == [a[0]] + a[1..] && b == [b[0]] + b[1..];
    }
  }

  /** One line of a directory listing. */
  datatype Entry = Entry(sum: Sum, name: string, dir: bool)

  function Label(e: Entry): string
  {
    if e.dir then e.name + "/" else e.name
  }

  function Line(e: Entry): string
  {
    Hex(e.sum) + " " + Label(e) + "\n"
  }

  function Listing(es: seq<Entry>): string
  {
    if es == [] then "" else Line(es[0]) + Listing(es[1..])
  }

  lemma {:induction false} ListingAppend(es: seq<Entry>, e: Entry)
    ensures Listing(es + [e]) == Listing(es) + Line(e)
    decreases |es|
  {
    if es == [] {
      assert es + [e] == [e];
      assert Listing([e]) == Line(e) + Listing([e][1..]);
    } else {
      assert (es + [e])[1..] == es[1..] + [e];
      ListingAppend(es[1..], e);
    }
  }

  lemma OnlyEmptyIsUnlisted(es: seq<Entry>)
    ensures Listing(es) == "" <==> es == []
  {
    if es != [] {
      assert |Line(es[0])| > 0;
    }
  }

  /** A name that cannot disturb the listing's separators. */
  predicate Plain(name: string)
  {
    '/' !in name && '\n' !in name
  }

  /** Cutting at the first `c` is unambiguous. */
  lemma CutIsUnique(c: char, a: string, r: string, b: string, s: string)
    requires c !in a && c !in b
    requires a + [c] + r == b + [c] + s
    ensures a == b && r == s
  {
    var x, y := a + [c] + r, b + [c] + s;
    assert x[|a|] == c && y[|b|] == c;
    assert forall k :: 0 <= k < |a| ==> x[k] == a[k];
    assert forall k :: 0 <= k < |b| ==> y[k] == b[k];
    assert |a| == |b|;
    assert a == x[..|a|] && b == y[..|b|];
    assert r == x[|a| + 1..] && s == y[|b| + 1..];
  }

  lemma LabelIsUnique(d: Entry, e: Entry)
    requires Plain(d.name) && Plain(e.name)
    requires Label(d) == Label(e)
    ensures d.name == e.name && d.dir == e.dir
  {
    var x, y := Label(d), Label(e);
    assert d.dir ==> x[|x| - 1] == '/';
    assert e.dir ==> y[|y| - 1] == '/';
    assert d.dir ==> d.name == x[..|x| - 1];
    assert e.dir ==> e.name == y[..|y| - 1];
  }

  lemma FirstLineIsUnique(a: seq<Entry>, b: seq<Entry>)
    requires a != [] && b != [] && Plain(a[0].name) && Plain(b[0].name)
    requires Listing(a) == Listing(b)
    ensures a[0] == b[0] && Listing(a[1..]) == Listing(b[1..])
  {
    var d, e := a[0], b[0];
    var bodyD, bodyE := Hex(d.sum) + " " + Label(d), Hex(e.sum) + " " + Label(e);
    HexHasNoSpace(d.sum);
    HexHasNoSpace(e.sum);
    hide Hex;
    assert Listing(a) == bodyD + ['\n'] + Listing(a[1..]);
    assert Listing(b) == bodyE + ['\n'] + Listing(b[1..]);
    CutIsUnique('\n', bodyD, Listing(a[1..]), bodyE, Listing(b[1..]));
    CutIsUnique(' ', Hex(d.sum), Label(d), Hex(e.sum), Label(e));
    HexIsInjective(d.sum, e.sum);
    LabelIsUnique(d, e);
  }

  /** A listing of plain names can be read back in only one way. */
  lemma {:induction false} ListingIsInjective(a: seq<Entry>, b: seq<Entry>)
    requires forall e :: e in a || e in b ==> Plain(e.name)
    requires Listing(a) == Listing(b)
    ensures a == b
    decreases |a|
  {
    hide Listing, Plain;
    if a != [] && b != [] {
      assert a[0] in a && b[0] in b;
      FirstLineIsUnique(a, b);
      ListingIsInjective(a[1..], b[1..]);
      assert a == [a[0]] + a[1..] && b == [b[0]] + b[1..];
    } else {
      OnlyEmptyIsUnlisted(a);
      OnlyEmptyIsUnlisted(b);
    }
  }

  /** The digest of a tree: a file's own, or the hash of the directory's listing. */
  ghost function Digest(h: Hash, t: Tree): (r: Sum)
    decreases t, 1, 0
  {
    match t
    case File(sum) => sum
    case Dir(children) => h(Listing(Entries(h, t, Sorted(children.Keys))))
  }

  ghost function EntryOf(h: Hash, t: Tree, name: string): Entry
    requires t.Dir? && name in t.children
    decreases t, 0, 0
  {
    Entry(Digest(h, t.children[name]), name, t.children[name].Dir?)
  }

  ghost function Entries(h: Hash, t: Tree, names: seq<string>): (r: seq<Entry>)
    requires t.Dir? && forall n :: n in names ==> n in t.children
    ensures |r| == |names|
    ensures forall i :: 0 <= i < |r| ==> r[i] == EntryOf(h, t, names[i])
    decreases t, 0, |names|
  {
    if names == [] then [] else [EntryOf(h, t, names[0])] + Entries(h, t, names[1..])
  }

  ghost predicate PlainNames(t: Tree)
  {
    AllNames(t, Plain)
  }

  ghost function PlainTrees(): iset<Tree>
  {
    iset t | PlainNames(t)
  }

  /** What the index stores: trees whose names are valid. */
  ghost predicate Storable(t: Tree)
  {
    AllNames(t, ValidName)
  }

  /** Under a collision-free hash, and for names free of `/` and newline, two
      directories (or two files) have the same digest exactly when they are
      the same tree. */
  lemma {:induction false} DigestIdentifies(h: Hash, t: Tree, u: Tree)
    requires CollisionFree(h) && PlainNames(t) && PlainNames(u)
    requires t.Dir? == u.Dir?
    ensures Digest(h, t) == Digest(h, u) <==> t == u
    decreases t
  {
    if t.Dir? && Digest(h, t) == Digest(h, u) {
      SameListingSameNames(h, t, u);
      forall n | n in t.children ensures t.children[n] == u.children[n] {
        assert EntryOf(h, t, n) == EntryOf(h, u, n);
        DigestIdentifies(h, t.children[n], u.children[n]);
      }
      assert t.children == u.children;
    }
  }

  lemma EntriesArePlain(h: Hash, t: Tree, names: seq<string>)
    requires PlainNames(t) && t.Dir? && forall n :: n in names ==> n in t.children
    ensures forall e :: e in Entries(h, t, names) ==> Plain(e.name)
  {
    var es := Entries(h, t, names);
    forall e | e in es ensures Plain(e.name) {
      var i :| 0 <= i < |es| && es[i] == e;
      assert names[i] in names;
    }
  }

  lemma SameEntriesSameNames(h: Hash, t: Tree, ns: seq<string>, u: Tree, ms: seq<string>)
    requires t.Dir? && forall n :: n in ns <==> n in t.children
    requires u.Dir? && forall n :: n in ms <==> n in u.children
    requires Entries(h, t, ns) == Entries(h, u, ms)
    ensures t.children.Keys == u.children.Keys
    ensures forall n :: n in t.children ==> EntryOf(h, t, n) == EntryOf(h, u, n)
  {
    var es, fs := Entries(h, t, ns), Entries(h, u, ms);
    forall i | 0 <= i < |ns| ensures ns[i] == ms[i] {
      assert es[i].name == fs[i].name;
    }
    assert ns == ms;
    forall n | n in t.children ensures EntryOf(h, t, n) == EntryOf(h, u, n) {
      var i :| 0 <= i < |ns| && ns[i] == n;
      assert es[i] == fs[i];
    }
  }

  lemma SameListingSameNames(h: Hash, t: Tree, u: Tree)
    requires CollisionFree(h) && PlainNames(t) && PlainNames(u)
    requires t.Dir? && u.Dir? && Digest(h, t) == Digest(h, u)
    ensures t.children.Keys == u.children.Keys
    ensures forall n :: n in t.children ==> EntryOf(h, t, n) == EntryOf(h, u, n)
  {
    var ns, ms := Sorted(t.children.Keys), Sorted(u.children.Keys);
    EntriesArePlain(h, t, ns);
    EntriesArePlain(h, u, ms);
    ListingIsInjective(Entries(h, t, ns), Entries(h, u, ms));
    SameEntriesSameNames(h, t, ns, u, ms);
  }

  /** Without the newline condition the digest does not identify the tree: a
      single file whose name embeds a second line is listed like two files. */
  lemma NewlineNamesCollide(h: Hash, s: Sum)
    ensures Dir(TwoFiles(s)) != Dir(OddFile(s))
    ensures Digest(h, Dir(TwoFiles(s))) == Digest(h, Dir(OddFile(s)))
  {
    hide Digest, FileLine, Listing, Entries, Hex;
    var t, u := Dir(TwoFiles(s)), Dir(OddFile(s));
    TwoFileDigest(h, t, s);
    OneFileDigest(h, u, OddName(s), s);
    SameText(s);
    assert "a" in TwoFiles(s) && "a" !in OddFile(s) by {
      assert OddName(s)[1] == '\n';
    }
  }

  /** The text that is hashed for a directory with one file, with two files, or with
      a directory and a file. */
  lemma ListedTexts(h: Hash)
    ensures Digest(h, Dir(map["f" := File([0x1a])])) == h("1a f\n")
    ensures Digest(h, Dir(map["a" := File([0x9f, 0xe8]), "b" := File([0xc0])])) == h("9fe8 a\nc0 b\n")
    ensures h("") == [0xde] ==> Digest(h, Dir(map["a" := Dir(map[]), "b" := File([0x2b])])) == h("de a/\n2b b\n")
  {
    hide *;
    OneText(h);
    TwoTexts(h);
    if h("") == [0xde] {
      DirText(h);
    }
  }

  lemma OneText(h: Hash)
    ensures Digest(h, Dir(map["f" := File([0x1a])])) == h("1a f\n")
  {
    hide Digest, Listing, Entries, Hex;
    OneFileDigest(h, Dir(map["f" := File([0x1a])]), "f", [0x1a]);
    HexOfByte(0x1a, []);
    NoHex();
    assert FileLine([0x1a], "f") == "1a f\n";
  }

  lemma TwoTexts(h: Hash)
    ensures Digest(h, Dir(map["a" := File([0x9f, 0xe8]), "b" := File([0xc0])])) == h("9fe8 a\nc0 b\n")
  {
    hide *;
    var t := Dir(map["a" := File([0x9f, 0xe8]), "b" := File([0xc0])]);
    TwoLinesDigest(h, t);
    FileDigest(h, [0x9f, 0xe8]);
    EntryIs(h, t, "a", [0x9f, 0xe8], false);
    FileDigest(h, [0xc0]);
    EntryIs(h, t, "b", [0xc0], false);
    TwoTextLines();
  }

  lemma TwoTextLines()
    ensures Line(Entry([0x9f, 0xe8], "a", false)) + Line(Entry([0xc0], "b", false)) == "9fe8 a\nc0 b\n"
  {
    hide Hex;
    HexOfByte(0x9f, [0xe8]);
    HexOfByte(0xe8, []);
    HexOfByte(0xc0, []);
    NoHex();
    assert [0x9f] + [0xe8] == [0x9f, 0xe8];
    assert Line(Entry([0x9f, 0xe8], "a", false)) == "9fe8 a\n" && Line(Entry([0xc0], "b", false)) == "c0 b\n";
  }

  lemma DirText(h: Hash)
    requires h("") == [0xde]
    ensures Digest(h, Dir(map["a" := Dir(map[]), "b" := File([0x2b])])) == h("de a/\n2b b\n")
  {
    hide *;
    var t := Dir(map["a" := Dir(map[]), "b" := File([0x2b])]);
    TwoLinesDigest(h, t);
    EmptyDigest(h);
    EntryIs(h, t, "a", [0xde], true);
    FileDigest(h, [0x2b]);
    EntryIs(h, t, "b", [0x2b], false);
    DirTextLines();
  }

  lemma DirTextLines()
    ensures Line(Entry([0xde], "a", true)) + Line(Entry([0x2b], "b", false)) == "de a/\n2b b\n"
  {
    hide Hex;
    HexOfByte(0xde, []);
    HexOfByte(0x2b, []);
    NoHex();
    assert Line(Entry([0xde], "a", true)) == "de a/\n" && Line(Entry([0x2b], "b", false)) == "2b b\n";
  }

  lemma HexOfByte(b: byte, rest: Sum)
    ensures Hex([b] + rest) == [HEX_DIGITS[b as int / 16], HEX_DIGITS[b as int % 16]] + Hex(rest)
    ensures [b] + [] == [b]
  {
    assert ([b] + rest)[1..] == rest;
  }

  lemma NoHex()
    ensures Hex([]) == ""
  {
  }

  lemma EmptyDigest(h: Hash)
    ensures Digest(h, Dir(map[])) == h("")
  {
    var t := Dir(map[]);
    assert Sorted(t.children.Keys) == [];
  }

  lemma TwoLinesDigest(h: Hash, t: Tree)
    requires t.Dir? && t.children.Keys == {"a", "b"}
    ensures Digest(h, t) == h(Line(EntryOf(h, t, "a")) + Line(EntryOf(h, t, "b")))
  {
    hide Line, EntryOf;
    TwoSorted(t.children.Keys);
    var es := Entries(h, t, ["a", "b"]);
    var first, second := EntryOf(h, t, "a"), EntryOf(h, t, "b");
    assert es == [] + [first] + [second];
    ListingAppend([] + [first], second);
    ListingAppend([], first);
    assert Listing([]) == "" && "" + Line(first) == Line(first);
  }

  lemma EntryIs(h: Hash, t: Tree, n: string, sum: Sum, dir: bool)
    requires t.Dir? && n in t.children && Digest(h, t.children[n]) == sum && t.children[n].Dir? == dir
    ensures EntryOf(h, t, n) == Entry(sum, n, dir)
  {
  }

  lemma FileDigest(h: Hash, sum: Sum)
    ensures Digest(h, File(sum)) == sum
  {
  }

  lemma TwoFileDigest(h: Hash, t: Tree, s: Sum)
    requires t.Dir? && t.children.Keys == {"a", "b"}
    requires t.children["a"] == File(s) && t.children["b"] == File(s)
    ensures Digest(h, t) == h(FileLine(s, "a") + FileLine(s, "b"))
  {
    hide Line;
    TwoLinesDigest(h, t);
  }

  lemma OneFileDigest(h: Hash, t: Tree, name: string, s: Sum)
    requires t.Dir? && t.children.Keys == {name} && t.children[name] == File(s)
    ensures Digest(h, t) == h(FileLine(s, name))
  {
    SortedIsTheOnlyOne([name], t.children.Keys);
    FirstFileListed(h, t, [name], s);
    assert [name][1..] == [];
    assert FileLine(s, name) + "" == FileLine(s, name);
  }

  function OddName(s: Sum): string { "a\n" + Hex(s) + " b" }

  function TwoFiles(s: Sum): map<string, Tree> { map["a" := File(s), "b" := File(s)] }

  function OddFile(s: Sum): map<string, Tree> { map[OddName(s) := File(s)] }

  function FileLine(s: Sum, name: string): string { Line(Entry(s, name, false)) }

  lemma SameText(s: Sum)
    ensures FileLine(s, "a") + FileLine(s, "b") == FileLine(s, OddName(s))
  {
    hide Hex;
    TwoLines(Hex(s), "a", "b");
    assert "a\n" == "a" + "\n" && " b" == " " + "b";
    assert OddName(s) == "a" + "\n" + Hex(s) + " " + "b";
  }

  lemma TwoLines(x: string, a: string, b: string)
    ensures (x + " " + a + "\n") + (x + " " + b + "\n") == x + " " + (a + "\n" + x + " " + b) + "\n"
  {
  }

  lemma TwoSorted(s: set<string>)
    requires s == {"a", "b"}
    ensures Sorted(s) == ["a", "b"]
  {
    SortedIsTheOnlyOne(["a", "b"], s);
  }

  lemma FirstFileListed(h: Hash, t: Tree, names: seq<string>, s: Sum)
    requires t.Dir? && names != [] && forall n :: n in names ==> n in t.children
    requires t.children[names[0]] == File(s)
    ensures Listing(Entries(h, t, names)) == FileLine(s, names[0]) + Listing(Entries(h, t, names[1..]))
  {
    var es := Entries(h, t, names);
    assert Digest(h, t.children[names[0]]) == s;
    assert es[0] == Entry(s, names[0], false);
    assert es[1..] == Entries(h, t, names[1..]);
  }
}
