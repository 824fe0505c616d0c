/** The order in which the program lists names: strings compared element by
    element, as Go's `<` on strings and SQLite's default collation do. */
module Ordering {

  predicate Less(a: string, b: string)
  {
    b != "" && (a == "" || a[0] < b[0] || (a[0] == b[0] && Less(a[1..], b[1..])))
  }

  /** The texts agree up to a place where `a` ends or has the smaller character. */
  lemma {:induction false} LessMeaning(a: string, b: string)
    ensures Less(a, b) <==>
            exists k :: 0 <= k <= |a| && k < |b| && a[..k] == b[..k] && (k == |a| || a[k] < b[k])
    decreases |a|
  {
    if a != "" && b != "" && a[0] == b[0] {
      LessMeaning(a[1..], b[1..]);
      if Less(a, b) {
        var k :| 0 <= k <= |a[1..]| && k < |b[1..]| && a[1..][..k] == b[1..][..k]
                 && (k == |a[1..]| || a[1..][k] < b[1..][k]);
        assert a[..k + 1] == [a[0]] + a[1..][..k] && b[..k + 1] == [b[0]] + b[1..][..k];
      }
      if k :| 0 <= k <= |a| && k < |b| && a[..k] == b[..k] && (k == |a| || a[k] < b[k]) {
        assert k > 0 && a[1..][..k - 1] == a[..k][1..] && b[1..][..k - 1] == b[..k][1..];
      }
    } else if b != "" {
      assert a[..0] == b[..0];
      forall k | 0 < k <= |a| && k < |b| ensures a[..k] == b[..k] ==> a[0] == b[0] {
        assert a[..k][0] == a[0] && b[..k][0] == b[0];
      }
    }
  }

  predicate AtMost(a: string, b: string)
  {
    a == b || Less(a, b)
  }

  lemma {:induction false} LessIsStrict(a: string, b: string)
    ensures !(Less(a, b) && Less(b, a)) && !Less(a, a)
    decreases |a|
  {
    if a != "" && b != "" {
      LessIsStrict(a[1..], b[1..]);
      LessIsStrict(a[1..], a[1..]);
    } else if a != "" {
      LessIsStrict(a[1..], a[1..]);
    }
  }

  lemma {:induction false} LessIsTransitive(a: string, b: string, c: string)
    requires Less(a, b) && Less(b, c)
    ensures Less(a, c)
    decreases |a|
  {
    if a != "" && a[0] == b[0] && b[0] == c[0] {
      LessIsTransitive(a[1..], b[1..], c[1..]);
    }
  }

  lemma {:induction false} LessIsTotal(a: string, b: string)
    ensures a == b || Less(a, b) || Less(b, a)
    decreases |a|
  {
    if a != "" && b != "" && a[0] == b[0] {
      LessIsTotal(a[1..], b[1..]);
      assert a == [a[0]] + a[1..] && b == [b[0]] + b[1..];
    }
  }

  ghost predicate IsSorted(s: seq<string>)
  {
    forall i, j :: 0 <= i < j < |s| ==> Less(s[i], s[j])
  }

  predicate IsLeast(m: string, s: set<string>)
  {
    m in s && forall x :: x in s ==> AtMost(m, x)
  }

  lemma {:induction false} LeastExists(s: set<string>)
    requires s != {}
    ensures exists m :: IsLeast(m, s)
    decreases |s|
  {
    var x :| x in s;
    var rest := s - {x};
    if rest == {} {
      assert s == {x};
      assert IsLeast(x, s);
    } else {
      LeastExists(rest);
      var m :| IsLeast(m, rest);
      LessIsTotal(x, m);
      var least := if Less(x, m) then x else m;
      forall y | y in s ensures AtMost(least, y) {
        if y != x {
          assert y in rest && AtMost(m, y);
          if least == x && m != y {
            LessIsTransitive(x, m, y);
          }
        }
      }
      assert IsLeast(least, s);
    }
  }

  lemma LeastIsUnique(m1: string, m2: string, s: set<string>)
    requires IsLeast(m1, s) && IsLeast(m2, s)
    ensures m1 == m2
  {
    LessIsStrict(m1, m2);
  }

  ghost function Least(s: set<string>): (m: string)
    requires s != {}
    ensures IsLeast(m, s)
  {
    LeastExists(s);
    var m :| IsLeast(m, s);
    m
  }

  /** The members of `s` in increasing order. */
  ghost function Sorted(s: set<string>): (r: seq<string>)
    ensures |r| == |s|
    ensures forall x :: x in r <==> x in s
    decreases |s|
  {
    if s == {} then []
    else
      var m := Least(s);
      assert forall x :: x in s <==> x == m || x in s - {m};
      [m] + Sorted(s - {m})
  }

  lemma SmallestFirst(m: string, rest: seq<string>)
    requires IsSorted(rest) && forall x :: x in rest ==> Less(m, x)
    ensures IsSorted([m] + rest)
  {
    hide Less;
    var all := [m] + rest;
    forall i, j | 0 <= i < j < |all| ensures Less(all[i], all[j]) {
      assert all[j] == rest[j - 1] && rest[j - 1] in rest;
      if i > 0 {
        assert all[i] == rest[i - 1];
      }
    }
  }

  lemma {:induction false} SortedIsSorted(s: set<string>)
    ensures IsSorted(Sorted(s))
    decreases |s|
  {
    if s != {} {
      var m := Least(s);
      var rest := Sorted(s - {m});
      SortedIsSorted(s - {m});
      forall x | x in rest ensures Less(m, x) {
        assert x in s && AtMost(m, x);
      }
      SmallestFirst(m, rest);
    }
  }

  /** A strictly sorted list is determined by the set of its members. */
  lemma {:induction false} SortedListsAgree(a: seq<string>, b: seq<string>)
    requires IsSorted(a) && IsSorted(b)
    requires forall x :: x in a <==> x in b
    ensures a == b
    decreases |a|
  {
    if a == [] {
      HeadIsMember(b);
    } else {
      assert a[0] in b && b != [];
      assert b[0] in a;
      if a[0] != b[0] {
        LessIsStrict(a[0], b[0]);
        assert false;
      }
      forall x ensures x in a[1..] <==> x in b[1..] {
        TailMembers(a, x);
        TailMembers(b, x);
      }
      SortedListsAgree(a[1..], b[1..]);
      assert a == [a[0]] + a[1..] && b == [b[0]] + b[1..];
    }
  }

  lemma HeadIsMember(a: seq<string>)
    ensures a != [] ==> exists x :: x in a
  {
    if a != [] {
      assert a[0] in a;
    }
  }

  lemma TailMembers(a: seq<string>, x: string)
    requires IsSorted(a) && a != []
    ensures x in a[1..] <==> x in a && x != a[0]
  {
    LessIsStrict(a[0], a[0]);
    if x in a && x != a[0] {
      var i :| 0 <= i < |a| && a[i] == x;
      assert a[1..][i - 1] == x;
    }
    forall i | 0 <= i < |a[1..]| ensures a[1..][i] != a[0] {
      assert Less(a[0], a[i + 1]);
    }
  }

  /** Whatever sorted list holds exactly the members of `s` is `Sorted(s)`. */
  lemma SortedIsTheOnlyOne(a: seq<string>, s: set<string>)
    requires IsSorted(a)
    requires forall x :: x in a <==> x in s
    ensures a == Sorted(s)
  {
    SortedIsSorted(s);
    SortedListsAgree(a, Sorted(s));
  }

  /** Inserting a new name before the first larger one keeps a list sorted. */
  lemma InsertSorted(ns: seq<string>, i: nat, x: string)
    requires IsSorted(ns) && x !in ns && i <= |ns|
    requires forall j :: 0 <= j < i ==> Less(ns[j], x)
    requires i < |ns| ==> !Less(ns[i], x)
    ensures IsSorted(ns[..i] + [x] + ns[i..])
    ensures forall k :: k in ns[..i] + [x] + ns[i..] <==> k == x || k in ns
  {
    var rs := ns[..i] + [x] + ns[i..];
    forall j | i <= j < |ns| ensures Less(x, ns[j]) {
      assert ns[i] in ns;
      LessIsTotal(ns[i], x);
      if i < j {
        LessIsTransitive(x, ns[i], ns[j]);
      }
    }
    assert ns == ns[..i] + ns[i..];
  }
}
