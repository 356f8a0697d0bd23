/** The provider directory list: case-insensitive search over name, account name and
    description, a stable sort on the chosen metric, pages of five, the page-number
    window with ellipses, and the current-page state behind the pager buttons. */
module ProvidersList {
  import Seqs
  import Text

  /** A provider card's data. */
  datatype Provider = Provider(
    id: string,
    name: string,
    accountName: string,
    description: string,
    avatar: string,
    returnPercentage: real,
    winRate: real,
    drawdown: real,
    totalTrades: int)

  /** `providersPerPage`. */
  const PageSize: nat := 5

  // ---------------------------------------------------------------------------
  // Search

  /** The search term occurs, ignoring case, in the name, account name or description. */
  predicate MatchesSearch(p: Provider, term: string) {
    Text.MatchesTerm(p.name, term) || Text.MatchesTerm(p.accountName, term)
    || Text.MatchesTerm(p.description, term)
  }

  /** `filteredProviders`. */
  function FilterProviders(providers: seq<Provider>, term: string): seq<Provider> {
    Seqs.Filter(providers, (p: Provider) => MatchesSearch(p, term))
  }

  /** A provider is listed exactly when it is given and matches the term. */
  lemma FilterProvidersExact(providers: seq<Provider>, term: string, p: Provider)
    ensures p in FilterProviders(providers, term) <==> p in providers && MatchesSearch(p, term)
  {
    Seqs.FilterMembership(providers, (q: Provider) => MatchesSearch(q, term), p);
  }

  /** The search keeps the given order. */
  lemma FilterProvidersOrdered(providers: seq<Provider>, term: string)
    ensures Seqs.IsSubsequence(FilterProviders(providers, term), providers)
  {
    Seqs.FilterIsSubsequence(providers, (q: Provider) => MatchesSearch(q, term));
  }

  /** The empty search term lists every provider, in order. */
  lemma EmptySearchKeepsAll(providers: seq<Provider>)
    ensures FilterProviders(providers, "") == providers
  {
    forall p | p in providers ensures MatchesSearch(p, "") {
      Text.EmptyTermMatches(p.name);
    }
    Seqs.FilterKeepsAll(providers, (q: Provider) => MatchesSearch(q, ""));
  }

  // ---------------------------------------------------------------------------
  // Sort

  /** The sort key: the comparator is `Key(a) - Key(b)`, so providers are ordered by
      ascending key, that is descending return %, win rate and total trades and
      ascending drawdown. Any other choice compares everything as equal. */
  function Key(p: Provider, sortBy: string): real {
    if sortBy == "returnPercentage" then -p.returnPercentage
    else if sortBy == "winRate" then -p.winRate
    else if sortBy == "drawdown" then p.drawdown
    else if sortBy == "totalTrades" then -(p.totalTrades as real)
    else 0.0
  }

  /** The comparator of the source, in terms of the key. */
  function Compare(a: Provider, b: Provider, sortBy: string): (r: real)
    ensures r == Key(a, sortBy) - Key(b, sortBy)
    ensures sortBy == "returnPercentage" ==> r == b.returnPercentage - a.returnPercentage
    ensures sortBy == "drawdown" ==> r == a.drawdown - b.drawdown
  {
    if sortBy == "returnPercentage" then b.returnPercentage - a.returnPercentage
    else if sortBy == "winRate" then b.winRate - a.winRate
    else if sortBy == "drawdown" then a.drawdown - b.drawdown
    else if sortBy == "totalTrades" then (b.totalTrades - a.totalTrades) as real
    else 0.0
  }

  predicate SortedBy(s: seq<Provider>, sortBy: string) {
    forall i, j :: 0 <= i < j < |s| ==> Key(s[i], sortBy) <= Key(s[j], sortBy)
  }

  /** Places `x` before the first element whose key is not smaller. */
  function Insert(x: Provider, s: seq<Provider>, sortBy: string): (r: seq<Provider>)
    ensures multiset(r) == multiset{x} + multiset(s)
    ensures |r| == |s| + 1
  {
    if s == [] || Key(x, sortBy) <= Key(s[0], sortBy) then [x] + s
    else
      assert s == [s[0]] + s[1..];
      [s[0]] + Insert(x, s[1..], sortBy)
  }

  /** `[...filteredProviders].sort(comparator)`: the stable sort that JavaScript's
      `Array.prototype.sort` is. */
  function SortProviders(s: seq<Provider>, sortBy: string): (r: seq<Provider>)
    ensures multiset(r) == multiset(s)
    ensures |r| == |s|
  {
    if s == [] then []
    else
      assert s == [s[0]] + s[1..];
      Insert(s[0], SortProviders(s[1..], sortBy), sortBy)
  }

  /** Inserting into a sorted list keeps it sorted. */
  lemma {:induction false} InsertSorted(x: Provider, s: seq<Provider>, sortBy: string)
    requires SortedBy(s, sortBy)
    ensures SortedBy(Insert(x, s, sortBy), sortBy)
  {
    if s != [] && Key(x, sortBy) > Key(s[0], sortBy) {
      InsertSorted(x, s[1..], sortBy);
      var rest := Insert(x, s[1..], sortBy);
      forall y | y in rest ensures Key(s[0], sortBy) <= Key(y, sortBy) {
        assert y in multiset(rest);
        if y != x {
          assert y in multiset(s[1..]);
        }
      }
    }
  }

  /** The sorted list is in key order. */
  lemma {:induction false} SortProvidersSorted(s: seq<Provider>, sortBy: string)
    ensures SortedBy(SortProviders(s, sortBy), sortBy)
  {
    if s != [] {
      SortProvidersSorted(s[1..], sortBy);
      InsertSorted(s[0], SortProviders(s[1..], sortBy), sortBy);
    }
  }

  /** Selects the providers with key `k`. */
  function WithKey(sortBy: string, k: real): Provider -> bool {
    (p: Provider) => Key(p, sortBy) == k
  }

  /** Inserting an element before its equals keeps the order among equal keys. */
  lemma {:induction false} InsertStable(x: Provider, s: seq<Provider>, sortBy: string, k: real)
    requires SortedBy(s, sortBy)
    ensures Seqs.Filter(Insert(x, s, sortBy), WithKey(sortBy, k))
         == (if Key(x, sortBy) == k then [x] else []) + Seqs.Filter(s, WithKey(sortBy, k))
  {
    var eq := WithKey(sortBy, k);
    var mine := if eq(x) then [x] else [];
    if s == [] || Key(x, sortBy) <= Key(s[0], sortBy) {
      assert Insert(x, s, sortBy) == [x] + s;
      assert ([x] + s)[1..] == s;
      assert Seqs.Filter([x] + s, eq) == mine + Seqs.Filter(s, eq);
    } else {
      InsertStable(x, s[1..], sortBy, k);
      var rest := Insert(x, s[1..], sortBy);
      var head := if eq(s[0]) then [s[0]] else [];
      assert Insert(x, s, sortBy) == [s[0]] + rest;
      assert ([s[0]] + rest)[1..] == rest;
      assert Seqs.Filter([s[0]] + rest, eq) == head + Seqs.Filter(rest, eq);
      assert Seqs.Filter(s, eq) == head + Seqs.Filter(s[1..], eq);
      if eq(s[0]) {
        assert mine == [];
      } else {
        assert head == [];
      }
    }
  }

  /** The sort is stable: providers with equal keys keep their filtered order. */
  lemma {:induction false} SortProvidersStable(s: seq<Provider>, sortBy: string, k: real)
    ensures Seqs.Filter(SortProviders(s, sortBy), WithKey(sortBy, k)) == Seqs.Filter(s, WithKey(sortBy, k))
  {
    if s != [] {
      SortProvidersStable(s[1..], sortBy, k);
      SortProvidersSorted(s[1..], sortBy);
      InsertStable(s[0], SortProviders(s[1..], sortBy), sortBy, k);
    }
  }

  /** An unrecognised sort choice makes the comparator return 0, so the order is kept. */
  lemma {:induction false} UnknownSortKeepsOrder(s: seq<Provider>, sortBy: string)
    requires sortBy !in {"returnPercentage", "winRate", "drawdown", "totalTrades"}
    ensures SortProviders(s, sortBy) == s
  {
    if s != [] {
      UnknownSortKeepsOrder(s[1..], sortBy);
      assert s == [s[0]] + s[1..];
    }
  }

  // ---------------------------------------------------------------------------
  // Pages

  /** `Array.prototype.slice(start, end)`: negative positions count from the end, and
      both positions are clamped to the list. */
  function JsSlice<T>(s: seq<T>, start: int, end: int): (r: seq<T>)
    ensures |r| <= |s|
    ensures 0 <= start <= end ==> r == s[if start < |s| then start else |s|..if end < |s| then end else |s|]
  {
    var n := |s|;
    var from := if start < 0 then (if n + start < 0 then 0 else n + start) else (if start < n then start else n);
    var to := if end < 0 then (if n + end < 0 then 0 else n + end) else (if end < n then end else n);
    if from < to then s[from..to] else []
  }

  /** `currentProviders`: the slice `[(page - 1) * 5, page * 5)`. */
  function Page<T>(s: seq<T>, page: int): (r: seq<T>)
    ensures |r| <= PageSize
  {
    JsSlice(s, page * PageSize - PageSize, page * PageSize)
  }

  /** `Math.ceil(n / 5)`. */
  function TotalPages(n: nat): (r: nat)
    ensures r * PageSize >= n
    ensures n > 0 ==> (r - 1) * PageSize < n
    ensures n == 0 ==> r == 0
  {
    (n + PageSize - 1) / PageSize
  }

  /** The pager is rendered only when there is more than one page, that is for more
      than five providers. */
  lemma PaginationShownIffMoreThanOnePage(n: nat)
    ensures TotalPages(n) > 1 <==> n > PageSize
  {
  }

  /** A page from 1 on holds the providers at positions `(page - 1) * 5` up to `page * 5`. */
  lemma PageContents<T>(s: seq<T>, page: int, i: int)
    requires page >= 1 && 0 <= i < |Page(s, page)|
    ensures (page - 1) * PageSize + i < |s| && Page(s, page)[i] == s[(page - 1) * PageSize + i]
  {
  }

  /** Pages 1 to `k` laid end to end. */
  function PagesUpTo<T>(s: seq<T>, k: nat): seq<T> {
    if k == 0 then [] else PagesUpTo(s, k - 1) + Page(s, k)
  }

  /** The first `k` pages are the first `5k` providers. */
  lemma {:induction false} PagesUpToPrefix<T>(s: seq<T>, k: nat)
    ensures PagesUpTo(s, k) == s[..if k * PageSize < |s| then k * PageSize else |s|]
  {
    if k > 0 {
      PagesUpToPrefix(s, k - 1);
      var a := if (k - 1) * PageSize < |s| then (k - 1) * PageSize else |s|;
      var b := if k * PageSize < |s| then k * PageSize else |s|;
      assert Page(s, k) == s[a..b];
      assert s[..a] + s[a..b] == s[..b];
    }
  }

  /** The pages partition the sorted list: pages 1 to `totalPages` together are the list. */
  lemma PagesPartition<T>(s: seq<T>)
    ensures PagesUpTo(s, TotalPages(|s|)) == s
  {
    PagesUpToPrefix(s, TotalPages(|s|));
  }

  /** Pages after the last are empty. */
  lemma PagesBeyondLastEmpty<T>(s: seq<T>, page: int)
    requires page > TotalPages(|s|)
    ensures Page(s, page) == []
  {
  }

  // ---------------------------------------------------------------------------
  // The page-number window

  /** What the pager renders for one page number. */
  datatype PageItem = Link | Ellipsis | Hidden

  /** A page number is a link when it is the first, the last, or next to the current
      page; the second and the next-to-last page become an ellipsis when the current
      page is far enough away; everything else is not rendered. */
  function ItemFor(k: int, current: int, total: int): PageItem {
    if k == 1 || k == total || (current - 1 <= k && k <= current + 1) then Link
    else if (k == 2 && current > 3) || (k == total - 1 && current < total - 2) then Ellipsis
    else Hidden
  }

  /** The first and the last page are always reachable, and so is the current one. */
  lemma EndsAndCurrentShown(current: int, total: int)
    ensures ItemFor(1, current, total) == Link && ItemFor(total, current, total) == Link
    ensures ItemFor(current, current, total) == Link
  {
  }

  /** Every page that is not rendered lies in a gap marked by an ellipsis on its side
      of the current page. */
  lemma HiddenPagesMarked(k: int, current: int, total: int)
    requires 1 <= current <= total
    requires 1 <= k <= total && ItemFor(k, current, total) == Hidden
    ensures k < current ==> ItemFor(2, current, total) == Ellipsis
    ensures k > current ==> ItemFor(total - 1, current, total) == Ellipsis
    ensures 2 < k < total - 1
  {
  }

  /** The numbers `lo` up to `hi - 1`. */
  function Range(lo: int, hi: int): (r: seq<int>)
    ensures |r| == if lo < hi then hi - lo else 0
    ensures forall i :: 0 <= i < |r| ==> r[i] == lo + i
    decreases hi - lo
  {
    if lo >= hi then [] else [lo] + Range(lo + 1, hi)
  }

  lemma RangeSplit(lo: int, mid: int, hi: int)
    requires lo <= mid <= hi
    ensures Range(lo, hi) == Range(lo, mid) + Range(mid, hi)
  {
  }

  /** Selects the page numbers rendered as links. */
  function IsLink(current: int, total: int): int -> bool {
    (k: int) => ItemFor(k, current, total) == Link
  }

  /** The page numbers rendered as links. */
  function LinkPages(current: int, total: int): seq<int> {
    Seqs.Filter(Range(1, total + 1), IsLink(current, total))
  }

  /** A stretch strictly between the first and the last page and clear of the current
      page's neighbours contributes no link. */
  lemma {:induction false} NoLinksIn(lo: int, hi: int, current: int, total: int)
    requires 1 < lo && hi <= total
    requires lo >= hi || hi <= current - 1 || lo >= current + 2
    ensures Seqs.Filter(Range(lo, hi), IsLink(current, total)) == []
    decreases hi - lo
  {
    if lo < hi {
      assert Range(lo, hi)[1..] == Range(lo + 1, hi);
      assert ItemFor(lo, current, total) != Link;
      NoLinksIn(lo + 1, hi, current, total);
    }
  }

  /** Cuts `[a, f)` at `b`, `c`, `d` and `e` and filters each stretch. */
  lemma FilterFivePieces(p: int -> bool, a: int, b: int, c: int, d: int, e: int, f: int)
    requires a <= b <= c <= d <= e <= f
    ensures |Seqs.Filter(Range(a, f), p)|
         == |Seqs.Filter(Range(a, b), p)| + |Seqs.Filter(Range(b, c), p)| + |Seqs.Filter(Range(c, d), p)|
          + |Seqs.Filter(Range(d, e), p)| + |Seqs.Filter(Range(e, f), p)|
  {
    RangeSplit(a, b, f);
    RangeSplit(b, c, f);
    RangeSplit(c, d, f);
    RangeSplit(d, e, f);
    Seqs.FilterConcat(Range(a, b), Range(b, f), p);
    Seqs.FilterConcat(Range(b, c), Range(c, f), p);
    Seqs.FilterConcat(Range(c, d), Range(d, f), p);
    Seqs.FilterConcat(Range(d, e), Range(e, f), p);
  }

  /** At most five page numbers are links: the first, the last and the three around the
      current page. */
  lemma AtMostFiveLinks(current: int, total: int)
    requires current >= 1
    ensures |LinkPages(current, total)| <= 5
  {
    if total >= 2 {
      var lo := if current - 1 > 2 then current - 1 else 2;
      lo := if lo < total then lo else total;
      var hi := if current + 2 > lo then current + 2 else lo;
      hi := if hi < total then hi else total;
      FilterFivePieces(IsLink(current, total), 1, 2, lo, hi, total, total + 1);
      NoLinksIn(2, lo, current, total);
      NoLinksIn(hi, total, current, total);
      assert |Range(lo, hi)| <= 3;
    } else {
      assert |Range(1, total + 1)| <= 1;
    }
  }

  // ---------------------------------------------------------------------------
  // The list state

  /** The component's state: the providers shown, the search term, the sort choice and
      the current page. */
  class ProviderBrowser {
    var providers: seq<Provider>
    var searchTerm: string
    var sortBy: string
    var currentPage: int

    /** The listed providers, in display order. */
    function Sorted(): seq<Provider>
      reads this
    {
      SortProviders(FilterProviders(providers, searchTerm), sortBy)
    }

    /** `totalPages`. */
    function Pages(): nat
      reads this
    {
      TotalPages(|FilterProviders(providers, searchTerm)|)
    }

    /** `currentProviders`. */
    function Visible(): seq<Provider>
      reads this
    {
      Page(Sorted(), currentPage)
    }

    /** The current page is a page of the list (page 1 when the list is empty). */
    ghost predicate Valid()
      reads this
    {
      1 <= currentPage && (currentPage <= Pages() || currentPage == 1)
    }

    /** The initial state: empty search, sorted by return %, page 1. */
    constructor (providers: seq<Provider>)
      ensures Valid()
      ensures this.providers == providers && searchTerm == "" && sortBy == "returnPercentage" && currentPage == 1
    {
      this.providers := providers;
      searchTerm := "";
      sortBy := "returnPercentage";
      currentPage := 1;
    }

    /** The previous-page button only moves down from a page above the first. */
    method Previous()
      requires Valid()
      modifies this`currentPage
      ensures Valid()
      ensures currentPage == if old(currentPage) > 1 then old(currentPage) - 1 else old(currentPage)
    {
      if currentPage > 1 {
        currentPage := currentPage - 1;
      }
    }

    /** The next-page button only moves up from a page below the last. */
    method Next()
      requires Valid()
      modifies this`currentPage
      ensures Valid()
      ensures currentPage == if old(currentPage) < Pages() then old(currentPage) + 1 else old(currentPage)
    {
      if currentPage < Pages() {
        currentPage := currentPage + 1;
      }
    }

    /** A click on a rendered page-number link. */
    method GoToPage(k: int)
      requires Valid() && 1 <= k <= Pages() && ItemFor(k, currentPage, Pages()) == Link
      modifies this`currentPage
      ensures Valid() && currentPage == k
    {
      currentPage := k;
    }

    /** A new sort choice reorders but keeps the number of pages. */
    method SetSortBy(s: string)
      requires Valid()
      modifies this`sortBy
      ensures Valid() && sortBy == s
      ensures multiset(Sorted()) == multiset(old(Sorted()))
    {
      sortBy := s;
    }

    /** The search box as written: the term changes, the current page does not. */
    method SetSearchTermAsWritten(term: string)
      modifies this`searchTerm
      ensures searchTerm == term && currentPage == old(currentPage)
    {
      searchTerm := term;
    }

    /** The search box with the page reset to the first one. */
    method SetSearchTerm(term: string)
      modifies this`searchTerm, this`currentPage
      ensures Valid() && searchTerm == term && currentPage == 1
    {
      searchTerm := term;
      currentPage := 1;
    }
  }

  /** In a valid state, a search with matches shows at least one of them. */
  lemma ValidPageShowsMatches(providers: seq<Provider>, term: string, sortBy: string, page: int)
    requires 1 <= page && (page <= TotalPages(|FilterProviders(providers, term)|) || page == 1)
    requires |FilterProviders(providers, term)| > 0
    ensures |Page(SortProviders(FilterProviders(providers, term), sortBy), page)| > 0
  {
  }

  /** As written, the page survives a narrower search: six providers, the second page,
      then a term only the first matches leaves an empty page and no pager, although a
      provider matches. */
  lemma StalePageHidesMatches(p: Provider, q: Provider)
    requires MatchesSearch(p, "x") && !MatchesSearch(q, "x")
    ensures var all := [p, q, q, q, q, q];
      && TotalPages(|FilterProviders(all, "")|) == 2
      && |FilterProviders(all, "x")| == 1
      && TotalPages(|FilterProviders(all, "x")|) == 1
      && Page(SortProviders(FilterProviders(all, "x"), "returnPercentage"), 2) == []
  {
    var all := [p, q, q, q, q, q];
    EmptySearchKeepsAll(all);
    var f := FilterProviders(all, "x");
    assert all[1..] == [q, q, q, q, q];
    assert Seqs.Filter([q], (r: Provider) => MatchesSearch(r, "x")) == [];
    assert Seqs.Filter([q, q], (r: Provider) => MatchesSearch(r, "x")) == [];
    assert Seqs.Filter([q, q, q], (r: Provider) => MatchesSearch(r, "x")) == [];
    assert Seqs.Filter([q, q, q, q], (r: Provider) => MatchesSearch(r, "x")) == [];
    assert Seqs.Filter([q, q, q, q, q], (r: Provider) => MatchesSearch(r, "x")) == [];
    assert f == [p];
  }
}
