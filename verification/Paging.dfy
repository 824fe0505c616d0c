/** Lists in pages: one page after a cursor, what following the cursors gives,
    and the client's iterator over the pages. */
module Paging {
  import opened Ordering

  function Beyond(keys: set<string>, cursor: string): set<string>
  {
    set k | k in keys && Less(cursor, k)
  }

  /** The keys after the cursor, in order: `WHERE key > cursor ORDER BY key`. */
  ghost function After(keys: set<string>, cursor: string): (r: seq<string>)
    ensures IsSorted(r) && forall k :: k in r <==> k in keys && Less(cursor, k)
  {
    SortedIsSorted(Beyond(keys, cursor));
    Sorted(Beyond(keys, cursor))
  }

  lemma LeastFirst(s: set<string>, m: string)
    requires IsLeast(m, s)
    ensures Sorted(s) == [m] + Sorted(s - {m})
  {
    LeastIsUnique(m, Least(s), s);
  }

  lemma EmptySorted(s: set<string>)
    ensures Sorted(s) == [] <==> s == {}
  {
  }

  lemma AfterIs(keys: set<string>, cursor: string)
    ensures After(keys, cursor) == Sorted(Beyond(keys, cursor))
  {
  }

  /** Nothing comes before the empty cursor. */
  lemma AfterStart(keys: set<string>)
    requires "" !in keys
    ensures After(keys, "") == Sorted(keys)
  {
    SortedIsTheOnlyOne(After(keys, ""), keys);
  }

  /** That query with a limit, of which a negative one is none. */
  method SelectAfter(keys: set<string>, cursor: string, limit: int) returns (r: seq<string>)
    ensures r == if limit < 0 || |After(keys, cursor)| <= limit then After(keys, cursor)
                 else After(keys, cursor)[..limit]
  {
    hide *;
    var left := Beyond(keys, cursor);
    AfterIs(keys, cursor);
    r := [];
    ghost var all := After(keys, cursor);
    assert [] + Sorted(left) == all;
    while left != {} && (limit < 0 || |r| < limit)
      invariant r + Sorted(left) == all && (limit >= 0 ==> |r| <= limit)
      decreases |left|
    {
      LeastExists(left);
      var m :| IsLeast(m, left);
      NextSelected(r, left, m);
      r, left := r + [m], left - {m};
    }
    EmptySorted(left);
    FirstPart(r, Sorted(left), all);
  }

  lemma NextSelected(r: seq<string>, left: set<string>, m: string)
    requires IsLeast(m, left)
    ensures m in left && r + Sorted(left) == (r + [m]) + Sorted(left - {m})
  {
    hide Sorted, IsLeast;
    LeastFirst(left, m);
    LeastIsMember(left, m);
  }

  lemma FirstPart(r: seq<string>, rest: seq<string>, all: seq<string>)
    requires r + rest == all
    ensures r == all[..|r|] && (rest == [] ==> r == all) && |r| <= |all| && (rest != [] ==> |r| < |all|)
  {
  }

  lemma LeastIsMember(s: set<string>, m: string)
    requires IsLeast(m, s)
    ensures m in s
  {
  }

  /** A page of keys, and the cursor for the next page: empty when there is none. */
  datatype Page = Page(items: seq<string>, next: string)

  /** One page, read off a query for one key more than the page holds. */
  ghost function PageAfter(keys: set<string>, cursor: string, limit: nat): Page
    requires limit > 0
  {
    var all := After(keys, cursor);
    if |all| > limit then Page(all[..limit], all[limit - 1]) else Page(all, "")
  }

  /** A page holds all there is, or as many keys as it may with the last one as cursor. */
  lemma PageIs(keys: set<string>, cursor: string, limit: nat)
    requires limit > 0
    ensures var all, page := After(keys, cursor), PageAfter(keys, cursor, limit);
            && (|all| <= limit ==> page.items == all && page.next == "")
            && (|all| > limit ==> page.items == all[..limit] && page.next == all[limit - 1])
  {
    hide After;
  }

  lemma TailOfSorted(s: seq<string>, i: nat)
    requires IsSorted(s) && i < |s|
    ensures IsSorted(s[i + 1..]) && forall k :: k in s[i + 1..] <==> k in s && Less(s[i], k)
  {
    forall k ensures k in s[i + 1..] <==> k in s && Less(s[i], k) {
      if k in s[i + 1..] {
        var j :| 0 <= j < |s[i + 1..]| && s[i + 1..][j] == k;
        assert s[i + 1 + j] == k;
      }
      if k in s && Less(s[i], k) {
        var j :| 0 <= j < |s| && s[j] == k;
        LessIsStrict(s[i], s[j]);
        assert s[i + 1..][j - (i + 1)] == k;
      }
    }
  }

  /** The next page goes on exactly where this one stops. */
  lemma NextPageGoesOn(keys: set<string>, cursor: string, limit: nat)
    requires limit > 0
    ensures var all := After(keys, cursor);
            |all| > limit ==> After(keys, all[limit - 1]) == all[limit..] && all[limit - 1] != ""
  {
    hide Sorted, Beyond, After;
    var all := After(keys, cursor);
    if |all| > limit {
      var last := all[limit - 1];
      TailOfSorted(all, limit - 1);
      assert last in all;
      forall k ensures k in all[limit..] <==> k in After(keys, last) {
        if k in keys && Less(last, k) {
          LessIsTransitive(cursor, last, k);
        }
      }
      SortedListsAgree(all[limit..], After(keys, last));
      assert Less(cursor, last);
    }
  }

  /** A page and what follows it. */
  lemma PageSplits(keys: set<string>, cursor: string, limit: nat)
    requires limit > 0
    ensures var page := PageAfter(keys, cursor, limit);
            && After(keys, cursor) == page.items + (if page.next == "" then [] else After(keys, page.next))
            && (page.next != "" ==> page.items != [])
  {
    hide After;
    NextPageGoesOn(keys, cursor, limit);
    var all := After(keys, cursor);
    if |all| > limit {
      assert all == all[..limit] + all[limit..];
    }
  }

  lemma PageShrinks(keys: set<string>, cursor: string, limit: nat)
    requires limit > 0
    ensures var page := PageAfter(keys, cursor, limit);
            page.next != "" ==> |After(keys, page.next)| < |After(keys, cursor)|
  {
    hide After, PageAfter;
    PageSplits(keys, cursor, limit);
  }

  /** The pages a caller sees who follows cursors until there is none. */
  ghost function AllPages(keys: set<string>, cursor: string, limit: nat): seq<seq<string>>
    requires limit > 0
    decreases |After(keys, cursor)|
  {
    var page := PageAfter(keys, cursor, limit);
    PageShrinks(keys, cursor, limit);
    if page.next == "" then [page.items] else [page.items] + AllPages(keys, page.next, limit)
  }

  function Concat(pages: seq<seq<string>>): seq<string>
  {
    if pages == [] then [] else pages[0] + Concat(pages[1..])
  }

  /** Following cursors from the start gives every key once, in order. */
  lemma {:induction false} PagesAreComplete(keys: set<string>, cursor: string, limit: nat)
    requires limit > 0
    ensures Concat(AllPages(keys, cursor, limit)) == After(keys, cursor)
    ensures "" !in keys && cursor == "" ==> Concat(AllPages(keys, cursor, limit)) == Sorted(keys)
    decreases |After(keys, cursor)|
  {
    hide After, PageAfter, Sorted;
    var page := PageAfter(keys, cursor, limit);
    PageSplits(keys, cursor, limit);
    if page.next == "" {
      assert AllPages(keys, cursor, limit)[1..] == [];
    } else {
      PageShrinks(keys, cursor, limit);
      assert AllPages(keys, cursor, limit)[1..] == AllPages(keys, page.next, limit);
      PagesAreComplete(keys, page.next, limit);
    }
    if "" !in keys && cursor == "" {
      AfterStart(keys);
    }
  }

  const DEFAULT_LIMIT := 1000

  /** The page size the server uses for a requested one. */
  function PageSize(limit: int): (r: nat)
    ensures (1 <= limit <= 1000 ==> r == limit) && (limit < 1 || limit > 1000 ==> r == 1000)
  {
    if limit < 1 || limit > 1000 then DEFAULT_LIMIT else limit
  }

  /** Cuts the extra row off a query result and sets the cursor. */
  method CutPage(rows: seq<string>, limit: nat, ghost keys: set<string>, ghost cursor: string) returns (page: Page)
    requires limit > 0
    requires rows == if |After(keys, cursor)| <= limit + 1 then After(keys, cursor)
                     else After(keys, cursor)[..limit + 1]
    ensures page == PageAfter(keys, cursor, limit)
  {
    if |rows| == limit + 1 {
      page := Page(rows[..limit], rows[limit - 1]);
    } else {
      page := Page(rows, "");
    }
  }

  // ----- the client's iterator -----

  datatype NextItem = Item(key: string) | EOF

  /** What the server lists does not change while the client iterates. */
  class Pager {
    const keys: set<string>
    const limit: int
    var nextPage: string
    var results: seq<string>
    var started: bool
    var i: nat

    constructor (keys: set<string>, limit: int)
      ensures Valid() && Rest() == After(keys, "") && this.keys == keys && this.limit == limit
    {
      this.keys, this.limit := keys, limit;
      nextPage, results, started, i := "", [], false, 0;
    }

    ghost predicate Valid()
      reads this
    {
      && i <= |results|
      && (!started ==> nextPage == "" && results == [] && i == 0)
      && (started && nextPage != "" ==> results != [])
    }

    /** The keys still to come. */
    ghost function Rest(): seq<string>
      reads this
      requires Valid()
    {
      if !started then After(keys, "")
      else results[i..] + (if nextPage == "" then [] else After(keys, nextPage))
    }

    predicate NeedNextPage()
      reads this
    {
      !started || (nextPage != "" && i == |results| && i > 0)
    }

    /** The server's answer to a request for one page. */
    method Request(cursor: string) returns (page: Page)
      ensures page == PageAfter(keys, cursor, PageSize(limit))
    {
      var rows := SelectAfter(keys, cursor, PageSize(limit) + 1);
      page := CutPage(rows, PageSize(limit), keys, cursor);
    }

    /** Takes the next page; what is still to come stays the same. */
    method Fetch()
      requires Valid() && NeedNextPage()
      modifies this
      ensures Valid() && started && i == 0 && Rest() == old(Rest())
    {
      hide After, PageAfter;
      i := 0;
      PageSplits(keys, nextPage, PageSize(limit));
      var page := Request(nextPage);
      results, nextPage, started := page.items, page.next, true;
    }

    /** With no page needed, what is still to come starts with the next result. */
    lemma RestBegins()
      requires Valid() && !NeedNextPage()
      ensures i >= |results| ==> Rest() == []
      ensures i < |results| ==>
                Rest() == [results[i]] + (results[i + 1..] + if nextPage == "" then [] else After(keys, nextPage))
    {
      hide After;
    }

    /** Each key once, in order; then the end, however often it is asked for. */
    method Next() returns (r: NextItem)
      requires Valid()
      modifies this
      ensures Valid()
      ensures old(Rest()) == [] ==> r == EOF && Rest() == []
      ensures old(Rest()) != [] ==> r == Item(old(Rest())[0]) && Rest() == old(Rest())[1..]
    {
      hide After, PageAfter, Rest;
      if NeedNextPage() {
        Fetch();
      }
      RestBegins();
      if i >= |results| {
        return EOF;
      }
      r := Item(results[i]);
      i := i + 1;
      RestIs();
    }

    lemma RestIs()
      requires Valid() && started
      ensures Rest() == results[i..] + if nextPage == "" then [] else After(keys, nextPage)
    {
      hide After;
    }
  }

  /** A client that asks until the end is reached sees every key once, in order. */
  method DrainAll(keys: set<string>, limit: int) returns (seen: seq<string>)
    ensures seen == After(keys, "")
    ensures "" !in keys ==> seen == Sorted(keys)
  {
    hide *;
    var pager := new Pager(keys, limit);
    seen := [];
    var more := true;
    while more
      invariant fresh(pager) && pager.Valid() && pager.keys == keys
      invariant seen + pager.Rest() == After(keys, "")
      invariant !more ==> pager.Rest() == []
      decreases |pager.Rest()|, more
    {
      var r := pager.Next();
      if r.EOF? {
        more := false;
      } else {
        seen := seen + [r.key];
      }
    }
    if "" !in keys {
      AfterStart(keys);
    }
  }
}
