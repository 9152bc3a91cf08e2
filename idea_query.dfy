/**
 * The computations behind the idea repository (lib/actions/idea-actions.ts)
 * as functions over the whole idea collection, which is one ordered
 * sequence: the search filter, the stable sort by upvotes, paging, the
 * look-ups by id, removal by id, the vote increment and the new record.
 */
module IdeaQuery {
  import opened IdeaTypes
  import Js

  // ----- Search -----

  /** `term` occurs in `text` once both are lower-cased. */
  ghost predicate ContainsIgnoringCase(text: string, term: string)
  {
    exists i :: Js.OccursAt(Js.ToLowerCase(text), Js.ToLowerCase(term), i)
  }

  /** The search test applied to one idea: the summary or the description contains the term, ignoring case. */
  function MatchesSearch(idea: Idea, search: string): (b: bool)
    ensures b <==> ContainsIgnoringCase(idea.summary, search) || ContainsIgnoringCase(idea.description, search)
  {
    var term := Js.ToLowerCase(search);
    Js.Includes(Js.ToLowerCase(idea.summary), term) || Js.Includes(Js.ToLowerCase(idea.description), term)
  }

  /** `ideas.filter(idea => MatchesSearch(idea, search))`. */
  function KeepMatching(ideas: seq<Idea>, search: string): (r: seq<Idea>)
    ensures |r| <= |ideas|
    ensures forall x :: x in r <==> x in ideas && MatchesSearch(x, search)
  {
    if ideas == [] then []
    else
      assert ideas == [ideas[0]] + ideas[1..];
      (if MatchesSearch(ideas[0], search) then [ideas[0]] else []) + KeepMatching(ideas[1..], search)
  }

  /** The search step of the list query: an empty term keeps everything. */
  function FilterBySearch(ideas: seq<Idea>, search: string): (r: seq<Idea>)
    ensures |r| <= |ideas|
    ensures search == "" ==> r == ideas
    ensures search != "" ==> forall x :: x in r <==> x in ideas && MatchesSearch(x, search)
  {
    if search == "" then ideas else KeepMatching(ideas, search)
  }

  /** Filtering keeps the collection's order: it distributes over concatenation. */
  lemma {:induction false} KeepMatchingAppend(a: seq<Idea>, b: seq<Idea>, search: string)
    ensures KeepMatching(a + b, search) == KeepMatching(a, search) + KeepMatching(b, search)
  {
    if a == [] {
      assert a + b == b;
    } else {
      assert (a + b)[0] == a[0];
      assert (a + b)[1..] == a[1..] + b;
      KeepMatchingAppend(a[1..], b, search);
    }
  }

  /** Filtering keeps every copy of a matching idea and no copy of any other. */
  lemma {:induction false} KeepMatchingCount(ideas: seq<Idea>, search: string, x: Idea)
    ensures multiset(KeepMatching(ideas, search))[x] == if MatchesSearch(x, search) then multiset(ideas)[x] else 0
  {
    if ideas != [] {
      var head, tail := ideas[0], ideas[1..];
      KeepMatchingCount(tail, search, x);
      assert ideas == [head] + tail;
      var kept := if MatchesSearch(head, search) then [head] else [];
      assert KeepMatching(ideas, search) == kept + KeepMatching(tail, search);
      assert multiset(KeepMatching(ideas, search)) == multiset(kept) + multiset(KeepMatching(tail, search));
      assert multiset(ideas) == multiset([head]) + multiset(tail);
    }
  }

  // ----- Sorting by upvotes, highest first, stable -----

  ghost predicate SortedByUpvotes(s: seq<Idea>)
  {
    forall i, j :: 0 <= i < j < |s| ==> s[i].upvotes >= s[j].upvotes
  }

  /** An idea with at least as many upvotes as every idea of a sorted list can go in front of it. */
  lemma SortedCons(x: Idea, s: seq<Idea>)
    requires SortedByUpvotes(s)
    requires forall y :: y in s ==> y.upvotes <= x.upvotes
    ensures SortedByUpvotes([x] + s)
  {
    var t := [x] + s;
    forall i, j | 0 <= i < j < |t| ensures t[i].upvotes >= t[j].upvotes {
      assert t[j] == s[j - 1];
      if i > 0 { assert t[i] == s[i - 1]; }
    }
  }

  /** Inserts `x` in front of the first idea with no more upvotes than it has. */
  function InsertByUpvotes(x: Idea, s: seq<Idea>): (r: seq<Idea>)
    ensures multiset(r) == multiset(s) + multiset{x}
  {
    if s == [] then [x]
    else if x.upvotes >= s[0].upvotes then [x] + s
    else
      assert s == [s[0]] + s[1..];
      [s[0]] + InsertByUpvotes(x, s[1..])
  }

  /** Inserting into a sorted list keeps it sorted. */
  lemma {:induction false} InsertByUpvotesSorted(x: Idea, s: seq<Idea>)
    requires SortedByUpvotes(s)
    ensures SortedByUpvotes(InsertByUpvotes(x, s))
  {
    if s == [] {
    } else if x.upvotes >= s[0].upvotes {
      SortedCons(x, s);
    } else {
      var t := s[1..];
      InsertByUpvotesSorted(x, t);
      var rest := InsertByUpvotes(x, t);
      forall y | y in rest ensures y.upvotes <= s[0].upvotes {
        assert y in multiset(rest);
        if y != x {
          assert y in multiset(t);
          var k :| 0 <= k < |t| && t[k] == y;
          assert s[k + 1] == y;
        }
      }
      SortedCons(s[0], rest);
    }
  }

  /** `[...s].sort((a, b) => b.upvotes - a.upvotes)`, as a stable insertion sort. */
  function SortByUpvotes(s: seq<Idea>): (r: seq<Idea>)
    ensures SortedByUpvotes(r)
    ensures multiset(r) == multiset(s)
    ensures |r| == |s|
  {
    if s == [] then []
    else
      assert s == [s[0]] + s[1..];
      var sortedTail := SortByUpvotes(s[1..]);
      InsertByUpvotesSorted(s[0], sortedTail);
      InsertByUpvotes(s[0], sortedTail)
  }

  /** The ideas of `s` that have exactly `v` upvotes, in their order in `s`. */
  function WithUpvotes(s: seq<Idea>, v: nat): seq<Idea>
  {
    if s == [] then [] else (if s[0].upvotes == v then [s[0]] else []) + WithUpvotes(s[1..], v)
  }

  lemma {:induction false} WithUpvotesMember(s: seq<Idea>, v: nat, x: Idea)
    ensures x in WithUpvotes(s, v) <==> x in s && x.upvotes == v
  {
    if s != [] {
      WithUpvotesMember(s[1..], v, x);
      assert s == [s[0]] + s[1..];
    }
  }

  /** Grouping a list that starts with `h`. */
  lemma WithUpvotesCons(h: Idea, t: seq<Idea>, v: nat)
    ensures WithUpvotes([h] + t, v) == (if h.upvotes == v then [h] else []) + WithUpvotes(t, v)
  {
    assert ([h] + t)[1..] == t;
  }

  lemma {:induction false} InsertByUpvotesStable(x: Idea, s: seq<Idea>, v: nat)
    ensures WithUpvotes(InsertByUpvotes(x, s), v) == (if x.upvotes == v then [x] else []) + WithUpvotes(s, v)
  {
    if s == [] {
      WithUpvotesCons(x, [], v);
    } else if x.upvotes >= s[0].upvotes {
      WithUpvotesCons(x, s, v);
    } else {
      var rest := InsertByUpvotes(x, s[1..]);
      InsertByUpvotesStable(x, s[1..], v);
      WithUpvotesCons(s[0], rest, v);
      WithUpvotesCons(s[0], s[1..], v);
      assert s == [s[0]] + s[1..];
      if x.upvotes == v {
        assert WithUpvotes(s, v) == WithUpvotes(s[1..], v);
      } else {
        assert WithUpvotes(rest, v) == WithUpvotes(s[1..], v);
      }
    }
  }

  /** The sort is stable: ideas with equal upvotes keep their relative order. */
  lemma {:induction false} SortByUpvotesStable(s: seq<Idea>, v: nat)
    ensures WithUpvotes(SortByUpvotes(s), v) == WithUpvotes(s, v)
  {
    if s != [] {
      SortByUpvotesStable(s[1..], v);
      InsertByUpvotesStable(s[0], SortByUpvotes(s[1..]), v);
    }
  }

  /** In a sorted list, no idea has more upvotes than the first. */
  lemma FirstHasMostUpvotes(s: seq<Idea>, x: Idea)
    requires SortedByUpvotes(s) && x in s
    ensures x.upvotes <= s[0].upvotes
  {
    var k :| 0 <= k < |s| && s[k] == x;
    assert k == 0 || s[0].upvotes >= s[k].upvotes;
  }

  /** The first idea of a list opens the group of its own vote count. */
  lemma FirstOpensItsGroup(s: seq<Idea>)
    requires s != []
    ensures WithUpvotes(s, s[0].upvotes) == [s[0]] + WithUpvotes(s[1..], s[0].upvotes)
  {
  }

  /** Two sorted, equally grouped lists start with the same idea. */
  lemma SameFirstIdea(r1: seq<Idea>, r2: seq<Idea>)
    requires r1 != [] && r2 != []
    requires SortedByUpvotes(r1) && SortedByUpvotes(r2)
    requires forall v: nat :: WithUpvotes(r1, v) == WithUpvotes(r2, v)
    ensures r1[0] == r2[0]
  {
    var v1, v2 := r1[0].upvotes, r2[0].upvotes;
    FirstOpensItsGroup(r1);
    FirstOpensItsGroup(r2);
    var g1, g2 := WithUpvotes(r1, v1), WithUpvotes(r2, v2);
    assert r1[0] == g1[0] && r2[0] == g2[0];
    assert r1[0] in WithUpvotes(r2, v1);
    WithUpvotesMember(r2, v1, r1[0]);
    FirstHasMostUpvotes(r2, r1[0]);
    assert r2[0] in WithUpvotes(r1, v2);
    WithUpvotesMember(r1, v2, r2[0]);
    FirstHasMostUpvotes(r1, r2[0]);
    assert v1 == v2;
  }

  /** Dropping the same first idea from two equally grouped lists leaves equally grouped lists. */
  lemma SameGroupsAfterFirst(r1: seq<Idea>, r2: seq<Idea>)
    requires r1 != [] && r2 != [] && r1[0] == r2[0]
    requires forall v: nat :: WithUpvotes(r1, v) == WithUpvotes(r2, v)
    ensures forall v: nat :: WithUpvotes(r1[1..], v) == WithUpvotes(r2[1..], v)
  {
    forall v: nat
      ensures WithUpvotes(r1[1..], v) == WithUpvotes(r2[1..], v)
    {
      var head := if r1[0].upvotes == v then [r1[0]] else [];
      assert WithUpvotes(r1, v) == head + WithUpvotes(r1[1..], v);
      assert WithUpvotes(r2, v) == head + WithUpvotes(r2[1..], v);
      assert WithUpvotes(r1[1..], v) == WithUpvotes(r1, v)[|head|..];
      assert WithUpvotes(r2[1..], v) == WithUpvotes(r2, v)[|head|..];
    }
  }

  /** Sorted by upvotes and stable pins the order down: two such orderings of the same ideas are equal. */
  lemma {:induction false} SortedStableUnique(r1: seq<Idea>, r2: seq<Idea>)
    requires SortedByUpvotes(r1) && SortedByUpvotes(r2)
    requires forall v: nat :: WithUpvotes(r1, v) == WithUpvotes(r2, v)
    ensures r1 == r2
  {
    assert r1 != [] ==> WithUpvotes(r1, r1[0].upvotes) != [];
    assert r2 != [] ==> WithUpvotes(r2, r2[0].upvotes) != [];
    if r1 != [] && r2 != [] {
      SameFirstIdea(r1, r2);
      SameGroupsAfterFirst(r1, r2);
      SortedStableUnique(r1[1..], r2[1..]);
      assert r1 == [r1[0]] + r1[1..];
      assert r2 == [r2[0]] + r2[1..];
    }
  }

  /** Therefore the sort is the only ordering that is sorted by upvotes, a permutation and stable. */
  lemma SortByUpvotesIsTheStableSort(s: seq<Idea>, r: seq<Idea>)
    requires SortedByUpvotes(r)
    requires forall v: nat :: WithUpvotes(r, v) == WithUpvotes(s, v)
    ensures r == SortByUpvotes(s)
  {
    forall v: nat
      ensures WithUpvotes(r, v) == WithUpvotes(SortByUpvotes(s), v)
    {
      SortByUpvotesStable(s, v);
    }
    SortedStableUnique(r, SortByUpvotes(s));
  }

  // ----- Paging -----

  /** `sorted.slice((page - 1) * limit, (page - 1) * limit + limit)`. */
  function PageOf(sorted: seq<Idea>, page: int, limit: int): (r: seq<Idea>)
    requires limit >= 1
    ensures page >= 1 ==> |r| <= limit
    ensures page >= 1 ==>
      var start := (page - 1) * limit;
      r == if start >= |sorted| then [] else sorted[start..if start + limit <= |sorted| then start + limit else |sorted|]
    ensures page == 0 ==> r == []
  {
    assert page >= 1 ==> (page - 1) * limit >= 0;
    Js.Slice(sorted, (page - 1) * limit, (page - 1) * limit + limit)
  }

  /** A page below zero is not rejected: slice counts negative indices from the end of the list. */
  lemma NegativePageCountsFromEnd(sorted: seq<Idea>, page: int, limit: int)
    requires limit >= 1 && page < 0
    requires |sorted| + (page - 1) * limit >= 0
    ensures PageOf(sorted, page, limit) == sorted[|sorted| + (page - 1) * limit..|sorted| + page * limit]
    ensures |PageOf(sorted, page, limit)| == limit
  {
    assert page * limit < 0;
  }

  /** Any slice of a list sorted by upvotes is sorted by upvotes and holds only ideas of the list. */
  lemma SliceOfSorted(s: seq<Idea>, start: int, end: int)
    requires SortedByUpvotes(s)
    ensures SortedByUpvotes(Js.Slice(s, start, end))
    ensures forall x :: x in Js.Slice(s, start, end) ==> x in s
  {
    var from := Js.RelativeIndex(start, |s|);
    var to := Js.RelativeIndex(end, |s|);
    if from < to {
      assert Js.Slice(s, start, end) == s[from..to];
      assert forall i :: 0 <= i < to - from ==> s[from..to][i] == s[from + i];
    }
  }

  lemma PageOfSorted(sorted: seq<Idea>, page: int, limit: int)
    requires limit >= 1 && SortedByUpvotes(sorted)
    ensures SortedByUpvotes(PageOf(sorted, page, limit))
    ensures forall x :: x in PageOf(sorted, page, limit) ==> x in sorted
  {
    SliceOfSorted(sorted, (page - 1) * limit, (page - 1) * limit + limit);
  }

  /** `getIdeas({page, limit, search})` over the collection `ideas`. */
  function GetIdeas(ideas: seq<Idea>, page: int, limit: int, search: string): (r: PaginatedIdeas)
    requires limit >= 1
    ensures r.currentPage == page
    ensures r.totalIdeas == |FilterBySearch(ideas, search)| <= |ideas|
  {
    var sorted := SortByUpvotes(FilterBySearch(ideas, search));
    var total := |sorted|;
    PaginatedIdeas(PageOf(sorted, page, limit), total, Js.CeilDiv(total, limit), page)
  }

  /** Every listed page is sorted by upvotes, holds at most `limit` ideas, and only ideas of the collection that match the search. */
  lemma ListedPageIsSortedMatches(ideas: seq<Idea>, page: int, limit: int, search: string)
    requires limit >= 1
    ensures var r := GetIdeas(ideas, page, limit, search);
      && SortedByUpvotes(r.ideas)
      && (page >= 1 ==> |r.ideas| <= limit)
      && forall x :: x in r.ideas ==> x in ideas && (search != "" ==> MatchesSearch(x, search))
  {
    var filtered := FilterBySearch(ideas, search);
    var sorted := SortByUpvotes(filtered);
    PageOfSorted(sorted, page, limit);
    assert GetIdeas(ideas, page, limit, search).ideas == PageOf(sorted, page, limit);
    assert forall x :: x in sorted ==> x in multiset(filtered);
  }

  /** `totalPages` is the ceiling of `totalIdeas / limit`: just enough pages of `limit` ideas to hold them all. */
  lemma TotalPagesIsCeiling(ideas: seq<Idea>, page: int, limit: int, search: string)
    requires limit >= 1
    ensures var r := GetIdeas(ideas, page, limit, search);
      r.totalIdeas <= r.totalPages * limit && (r.totalPages - 1) * limit < r.totalIdeas
    ensures ideas == [] ==> GetIdeas(ideas, page, limit, search).totalPages == 0
  {
    var r := GetIdeas(ideas, page, limit, search);
    assert r.totalPages == Js.CeilDiv(r.totalIdeas, limit);
  }

  /** The ideas on pages 1 to `k` of `sorted`, one page after the other. */
  ghost function PagesUpTo(sorted: seq<Idea>, limit: int, k: nat): seq<Idea>
    requires limit >= 1
  {
    if k == 0 then [] else PagesUpTo(sorted, limit, k - 1) + PageOf(sorted, k, limit)
  }

  /** Appending the slice `[a, a + limit)` to the prefix of length `a` gives the prefix of length `a + limit` (all clamped to `|s|`). */
  lemma PrefixThenPage(s: seq<Idea>, a: nat, limit: nat)
    ensures var n := |s|;
      s[..if a <= n then a else n]
        + (if a >= n then [] else s[a..if a + limit <= n then a + limit else n])
      == s[..if a + limit <= n then a + limit else n]
  {
    var n := |s|;
    if a < n {
      var e := if a + limit <= n then a + limit else n;
      assert s[..a] + s[a..e] == s[..e];
    }
  }

  lemma StartOfNextPage(k: nat, limit: nat)
    requires k >= 1
    ensures (k - 1) * limit >= 0
    ensures k * limit == (k - 1) * limit + limit
  {
  }

  /** Pages 1 to `k` are exactly the first `k * limit` ideas: consecutive, contiguous and disjoint. */
  lemma {:induction false} PagesUpToPrefix(sorted: seq<Idea>, limit: int, k: nat)
    requires limit >= 1
    ensures PagesUpTo(sorted, limit, k) == sorted[..if k * limit <= |sorted| then k * limit else |sorted|]
  {
    if k > 0 {
      PagesUpToPrefix(sorted, limit, k - 1);
      var n := |sorted|;
      var a := (k - 1) * limit;
      StartOfNextPage(k, limit);
      assert PagesUpTo(sorted, limit, k) == PagesUpTo(sorted, limit, k - 1) + PageOf(sorted, k, limit);
      assert PageOf(sorted, k, limit) == if a >= n then [] else sorted[a..if a + limit <= n then a + limit else n];
      PrefixThenPage(sorted, a, limit);
    }
  }

  /** Page `page` of the listing is that page of the filtered, sorted list. */
  lemma GetIdeasPage(ideas: seq<Idea>, page: int, limit: int, search: string)
    requires limit >= 1
    ensures GetIdeas(ideas, page, limit, search).ideas == PageOf(SortByUpvotes(FilterBySearch(ideas, search)), page, limit)
  {
  }

  /**
   * Page `page >= 1` of the listing is the range of `limit` ideas of the
   * filtered, sorted list that starts at `(page - 1) * limit`, cut at the
   * end of the list, and empty once the start is past the end.
   */
  lemma ListedPageIsRange(ideas: seq<Idea>, page: int, limit: int, search: string, sorted: seq<Idea>, start: nat)
    requires limit >= 1 && page >= 1
    requires sorted == SortByUpvotes(FilterBySearch(ideas, search))
    requires start == (page - 1) * limit
    ensures GetIdeas(ideas, page, limit, search).ideas
      == if start >= |sorted| then [] else sorted[start..if start + limit <= |sorted| then start + limit else |sorted|]
  {
    GetIdeasPage(ideas, page, limit, search);
  }

  /** Pages 1 to `totalPages` together list every filtered idea exactly once, in sorted order; their sizes add up to `totalIdeas`. */
  lemma PagesTile(ideas: seq<Idea>, limit: int, search: string)
    requires limit >= 1
    ensures var sorted := SortByUpvotes(FilterBySearch(ideas, search));
      var r := GetIdeas(ideas, 1, limit, search);
      PagesUpTo(sorted, limit, r.totalPages) == sorted && |PagesUpTo(sorted, limit, r.totalPages)| == r.totalIdeas
  {
    var sorted := SortByUpvotes(FilterBySearch(ideas, search));
    var r := GetIdeas(ideas, 1, limit, search);
    PagesUpToPrefix(sorted, limit, r.totalPages);
    assert sorted[..|sorted|] == sorted;
  }

  /** Pages strictly after page `q` start at or beyond `q * limit`. */
  lemma StartPastPage(page: int, limit: nat, q: nat)
    requires page > q
    ensures (page - 1) * limit >= q * limit
  {
    var extra: nat := page - 1 - q;
    assert (page - 1) * limit == q * limit + extra * limit;
  }

  /** A page past the last one is empty. */
  lemma PagePastLastIsEmpty(sorted: seq<Idea>, page: int, limit: int)
    requires limit >= 1
    requires page > Js.CeilDiv(|sorted|, limit)
    ensures PageOf(sorted, page, limit) == []
  {
    StartPastPage(page, limit, Js.CeilDiv(|sorted|, limit));
  }

  /** Two ideas with 5 and 10 upvotes sort as the second, then the first. */
  lemma SortPairExample(b: Idea, c: Idea)
    requires b.upvotes == 5 && c.upvotes == 10
    ensures SortByUpvotes([b, c]) == [c, b]
  {
    assert [b, c][1..] == [c];
    assert SortByUpvotes([c]) == [c];
  }

  /** An idea with 5 upvotes goes after one with 10 and before an earlier one with 5. */
  lemma InsertExample(a: Idea, b: Idea, c: Idea)
    requires a.upvotes == 5 && b.upvotes == 5 && c.upvotes == 10
    ensures InsertByUpvotes(a, [c, b]) == [c, a, b]
  {
    assert [c, b][1..] == [b];
    assert InsertByUpvotes(a, [b]) == [a] + [b];
    assert InsertByUpvotes(a, [c, b]) == [c] + InsertByUpvotes(a, [b]);
  }

  /** Ideas with 5, 5 and 10 upvotes, in that order, sort as the third, the first, the second: ties keep their order. */
  lemma SortExample(a: Idea, b: Idea, c: Idea)
    requires a.upvotes == 5 && b.upvotes == 5 && c.upvotes == 10
    ensures SortByUpvotes([a, b, c]) == [c, a, b]
  {
    assert [a, b, c][1..] == [b, c];
    SortPairExample(b, c);
    InsertExample(a, b, c);
  }

  /** The first page of 20 of a three-idea list is the whole list; the second page of 1 is its middle idea. */
  lemma PageOfThree(x: Idea, y: Idea, z: Idea)
    ensures PageOf([x, y, z], 1, 20) == [x, y, z]
    ensures PageOf([x, y, z], 2, 1) == [y]
  {
    assert [x, y, z][0..3] == [x, y, z];
    assert [x, y, z][1..2] == [y];
  }

  /** The same three ideas listed 20 to a page come out on one page in that order. */
  lemma FirstPageExample(a: Idea, b: Idea, c: Idea)
    requires a.upvotes == 5 && b.upvotes == 5 && c.upvotes == 10
    ensures GetIdeas([a, b, c], 1, 20, "").ideas == [c, a, b]
  {
    SortExample(a, b, c);
    GetIdeasPage([a, b, c], 1, 20, "");
    PageOfThree(c, a, b);
  }

  /** Listed one to a page, the second page holds the second-ranked idea. */
  lemma SecondPageExample(a: Idea, b: Idea, c: Idea)
    requires a.upvotes == 5 && b.upvotes == 5 && c.upvotes == 10
    ensures GetIdeas([a, b, c], 2, 1, "").ideas == [a]
  {
    SortExample(a, b, c);
    GetIdeasPage([a, b, c], 2, 1, "");
    PageOfThree(c, a, b);
  }

  /** One idea to a page, three ideas make three pages. */
  lemma PageCountExample(a: Idea, b: Idea, c: Idea)
    ensures GetIdeas([a, b, c], 2, 1, "").totalPages == 3
  {
    TotalPagesIsCeiling([a, b, c], 2, 1, "");
  }

  // ----- Look-ups, removal, voting, creation -----

  /** `ideas.findIndex(idea => idea.id === id)`, with `None` for -1. */
  function FindIndex(ideas: seq<Idea>, id: string): (r: Option<nat>)
    ensures r.None? <==> forall i :: 0 <= i < |ideas| ==> ideas[i].id != id
    ensures r.Some? ==> r.value < |ideas| && ideas[r.value].id == id
    ensures r.Some? ==> forall j :: 0 <= j < r.value ==> ideas[j].id != id
  {
    if ideas == [] then None
    else if ideas[0].id == id then Some(0)
    else
      match FindIndex(ideas[1..], id)
      case None => None
      case Some(k) => Some(k + 1)
  }

  /** Index `i` holds the first idea whose id is `id`. */
  ghost predicate FirstIdeaWithId(ideas: seq<Idea>, id: string, i: int)
  {
    0 <= i < |ideas| && ideas[i].id == id && forall j :: 0 <= j < i ==> ideas[j].id != id
  }

  /** `ideas.find(idea => idea.id === id) || null`: the first idea with that id. */
  function FindById(ideas: seq<Idea>, id: string): (r: Option<Idea>)
    ensures r.None? <==> forall i :: 0 <= i < |ideas| ==> ideas[i].id != id
    ensures r.Some? ==> exists i :: FirstIdeaWithId(ideas, id, i) && ideas[i] == r.value
  {
    match FindIndex(ideas, id)
    case None => None
    case Some(i) =>
      assert FirstIdeaWithId(ideas, id, i);
      Some(ideas[i])
  }

  /** Index `i` holds the first employee whose id is `id`. */
  ghost predicate FirstEmployeeWithId(employees: seq<Employee>, id: string, i: int)
  {
    0 <= i < |employees| && employees[i].id == id && forall j :: 0 <= j < i ==> employees[j].id != id
  }

  /** `employees.find(emp => emp.id === id)`: the first employee with that id. */
  function FindEmployee(employees: seq<Employee>, id: string): (r: Option<Employee>)
    ensures r.None? <==> forall i :: 0 <= i < |employees| ==> employees[i].id != id
    ensures r.Some? ==> exists i :: FirstEmployeeWithId(employees, id, i) && employees[i] == r.value
  {
    if employees == [] then None
    else if employees[0].id == id then
      assert FirstEmployeeWithId(employees, id, 0);
      Some(employees[0])
    else
      var rest := FindEmployee(employees[1..], id);
      assert rest.Some? ==> exists i :: FirstEmployeeWithId(employees, id, i) && employees[i] == rest.value by {
        if rest.Some? {
          var i :| FirstEmployeeWithId(employees[1..], id, i) && employees[1..][i] == rest.value;
          assert FirstEmployeeWithId(employees, id, i + 1);
        }
      }
      rest
  }

  /** `ideas.filter(idea => idea.id !== id)`. */
  function RemoveById(ideas: seq<Idea>, id: string): (r: seq<Idea>)
    ensures |r| <= |ideas|
    ensures forall x :: x in r <==> x in ideas && x.id != id
    ensures |r| == |ideas| <==> forall i :: 0 <= i < |ideas| ==> ideas[i].id != id
  {
    if ideas == [] then []
    else
      assert ideas == [ideas[0]] + ideas[1..];
      (if ideas[0].id != id then [ideas[0]] else []) + RemoveById(ideas[1..], id)
  }

  /** Concatenation is associative. */
  lemma AppendAssociative(x: seq<Idea>, y: seq<Idea>, z: seq<Idea>)
    ensures x + (y + z) == (x + y) + z
  {
  }

  /** Filtering a list that starts with `h`. */
  lemma RemoveByIdCons(h: Idea, t: seq<Idea>, id: string)
    ensures RemoveById([h] + t, id) == (if h.id != id then [h] else []) + RemoveById(t, id)
  {
    assert ([h] + t)[1..] == t;
  }

  lemma {:induction false} RemoveByIdAppend(a: seq<Idea>, b: seq<Idea>, id: string)
    ensures RemoveById(a + b, id) == RemoveById(a, id) + RemoveById(b, id)
  {
    if a == [] {
      assert a + b == b;
    } else {
      var h, t := a[0], a[1..];
      var own := if h.id != id then [h] else [];
      assert a == [h] + t;
      assert a + b == [h] + (t + b);
      calc {
        RemoveById(a + b, id);
        { RemoveByIdCons(h, t + b, id); }
        own + RemoveById(t + b, id);
        { RemoveByIdAppend(t, b, id); }
        own + (RemoveById(t, id) + RemoveById(b, id));
        { AppendAssociative(own, RemoveById(t, id), RemoveById(b, id)); }
        (own + RemoveById(t, id)) + RemoveById(b, id);
        { RemoveByIdCons(h, t, id); }
        RemoveById(a, id) + RemoveById(b, id);
      }
    }
  }

  lemma {:induction false} RemoveByIdAbsent(ideas: seq<Idea>, id: string)
    requires forall i :: 0 <= i < |ideas| ==> ideas[i].id != id
    ensures RemoveById(ideas, id) == ideas
  {
    if ideas != [] {
      RemoveByIdAbsent(ideas[1..], id);
      assert ideas == [ideas[0]] + ideas[1..];
    }
  }

  /** No two ideas of the collection share an id. */
  ghost predicate UniqueIds(ideas: seq<Idea>)
  {
    forall i, j :: 0 <= i < j < |ideas| ==> ideas[i].id != ideas[j].id
  }

  lemma UniqueIdsCons(x: Idea, s: seq<Idea>)
    ensures UniqueIds([x] + s) <==> (forall y :: y in s ==> y.id != x.id) && UniqueIds(s)
  {
    var t := [x] + s;
    assert forall k :: 0 <= k < |s| ==> t[k + 1] == s[k];
    if (forall y :: y in s ==> y.id != x.id) && UniqueIds(s) {
      forall i, j | 0 <= i < j < |t| ensures t[i].id != t[j].id {
        if i == 0 {
          assert t[j] == s[j - 1];
        } else {
          assert t[i] == s[i - 1] && t[j] == s[j - 1];
        }
      }
    }
    if UniqueIds(t) {
      forall y | y in s ensures y.id != x.id {
        var k :| 0 <= k < |s| && s[k] == y;
        assert t[0] == x && t[k + 1] == y;
      }
    }
  }

  /** Removing by id keeps ids unique. */
  lemma {:induction false} RemoveByIdKeepsUnique(ideas: seq<Idea>, id: string)
    requires UniqueIds(ideas)
    ensures UniqueIds(RemoveById(ideas, id))
  {
    if ideas != [] {
      assert ideas == [ideas[0]] + ideas[1..];
      UniqueIdsCons(ideas[0], ideas[1..]);
      RemoveByIdKeepsUnique(ideas[1..], id);
      var rest := RemoveById(ideas[1..], id);
      if ideas[0].id != id {
        UniqueIdsCons(ideas[0], rest);
      } else {
        assert RemoveById(ideas, id) == rest;
      }
    }
  }

  /** With unique ids, removing a present id deletes exactly the one idea at its index and keeps the rest in order. */
  lemma RemoveByIdDeletesOne(ideas: seq<Idea>, id: string, k: nat)
    requires UniqueIds(ideas)
    requires k < |ideas| && ideas[k].id == id
    ensures RemoveById(ideas, id) == ideas[..k] + ideas[k + 1..]
    ensures |RemoveById(ideas, id)| == |ideas| - 1
  {
    var before, at, after := ideas[..k], [ideas[k]], ideas[k + 1..];
    assert ideas == before + (at + after);
    assert forall i :: 0 <= i < |before| ==> before[i] == ideas[i];
    assert forall i :: 0 <= i < |after| ==> after[i] == ideas[k + 1 + i];
    RemoveByIdAbsent(before, id);
    RemoveByIdAbsent(after, id);
    RemoveByIdAppend(at, after, id);
    RemoveByIdAppend(before, at + after, id);
    assert RemoveById(at, id) == [];
    assert RemoveById(at + after, id) == after;
    assert RemoveById(ideas, id) == before + after;
  }

  /** After removal no idea with that id is left to be found. */
  lemma RemovedIsNotFound(ideas: seq<Idea>, id: string)
    ensures FindById(RemoveById(ideas, id), id) == None
  {
    var r := RemoveById(ideas, id);
    forall i | 0 <= i < |r| ensures r[i].id != id {
      assert r[i] in r;
    }
  }

  /** One vote of the given kind: the matching counter rises by one and nothing else changes. */
  function ApplyVote(idea: Idea, voteType: VoteType): (r: Idea)
    ensures r.id == idea.id
    ensures voteType == Upvote ==> r.upvotes == idea.upvotes + 1 && r.(upvotes := idea.upvotes) == idea
    ensures voteType == Downvote ==> r.downvotes == idea.downvotes + 1 && r.(downvotes := idea.downvotes) == idea
  {
    match voteType
    case Upvote => idea.(upvotes := idea.upvotes + 1)
    case Downvote => idea.(downvotes := idea.downvotes + 1)
  }

  /** The record `createIdea` builds for a form submitted by `employee`. */
  function NewIdea(form: IdeaFormData, employee: Employee, id: string, createdAt: string): (r: Idea)
    ensures r.id == id && r.createdAt == createdAt
    ensures r.summary == form.summary && r.description == form.description && r.employeeId == form.employeeId
    ensures r.employeeName == employee.name && r.employeeImage == employee.profileImage
    ensures r.priority == if form.priority.None? then Low else form.priority.value
    ensures r.upvotes == 0 && r.downvotes == 0
  {
    Idea(
      id := id,
      summary := form.summary,
      description := form.description,
      employeeId := form.employeeId,
      employeeName := employee.name,
      employeeImage := employee.profileImage,
      priority := match form.priority case None => Low case Some(p) => p,
      upvotes := 0,
      downvotes := 0,
      createdAt := createdAt)
  }

  /** A new idea lands first among the ideas with no upvotes yet, since it is prepended and the sort is stable. */
  lemma NewIdeaFirstAmongUnvoted(form: IdeaFormData, employee: Employee, id: string, createdAt: string, ideas: seq<Idea>)
    ensures var created := NewIdea(form, employee, id, createdAt);
      WithUpvotes(SortByUpvotes([created] + ideas), 0) == [created] + WithUpvotes(ideas, 0)
  {
    var created := NewIdea(form, employee, id, createdAt);
    SortByUpvotesStable([created] + ideas, 0);
    assert ([created] + ideas)[1..] == ideas;
  }

  /** Only one index can be the first with a given id. */
  lemma FirstIdeaWithIdUnique(ideas: seq<Idea>, id: string, i: int, j: int)
    requires FirstIdeaWithId(ideas, id, i) && FirstIdeaWithId(ideas, id, j)
    ensures i == j
  {
  }

  /** After a vote the idea found under that id is the voted one. */
  lemma VotedIsFound(ideas: seq<Idea>, id: string, voteType: VoteType)
    requires FindIndex(ideas, id).Some?
    ensures var k := FindIndex(ideas, id).value;
      FindById(ideas[k := ApplyVote(ideas[k], voteType)], id) == Some(ApplyVote(ideas[k], voteType))
  {
    var k := FindIndex(ideas, id).value;
    var after := ideas[k := ApplyVote(ideas[k], voteType)];
    assert forall j :: 0 <= j < k ==> after[j] == ideas[j];
    assert FirstIdeaWithId(after, id, k);
    var m := FindIndex(after, id).value;
    FirstIdeaWithIdUnique(after, id, k, m);
  }
}
