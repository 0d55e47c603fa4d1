/** Business discovery (`get_urls`): the search URL of each results page,
    the number of pages read from the results heading, and the listing links
    gathered page after page. Fetching a page is a parameter. */
module Directory {
  import opened Options
  import opened Text
  import opened Decimal
  import opened Seqs
  import opened Names
  import opened BusinessPage
  import opened Links

  /** A search-results page: the text of the results heading (`None` when
      the element is not found, which raises) and the `href` of each listing
      link, in page order. */
  datatype ResultsPage = ResultsPage(heading: Option<string>, hrefs: seq<Option<string>>)

  const SearchBase := "https://www.bbb.org/search?find_country=USA&find_latlng=36.142467%2C-115.204160&find_loc="

  /** Everything of a search URL before the page number. */
  function SearchPrefix(keywords: string, state: string): string {
    SearchBase + LocationParam(state) + "&find_text=" + KeywordsParam(keywords) + "&page="
  }

  /** The URL of results page `page` for a query. */
  function SearchUrl(keywords: string, state: string, page: nat): (u: string)
    ensures |u| > |SearchPrefix(keywords, state)|
    ensures u[..|SearchPrefix(keywords, state)|] == SearchPrefix(keywords, state)
  {
    SearchPrefix(keywords, state) + NatToString(page) + "&touched=1"
  }

  /** Different pages of one query have different URLs. */
  lemma {:induction false} SearchUrlPageInjective(keywords: string, state: string, p: nat, q: nat)
    requires SearchUrl(keywords, state, p) == SearchUrl(keywords, state, q)
    ensures p == q
  {
    var pre := SearchPrefix(keywords, state);
    var u := SearchUrl(keywords, state, p);
    var a := NatToString(p);
    var b := NatToString(q);
    assert |a| == |b|;
    assert u[|pre|..|pre| + |a|] == a;
    assert SearchUrl(keywords, state, q)[|pre|..|pre| + |b|] == b;
    NatToStringInjective(p, q);
  }

  /** The page number of a search URL reads back from it. */
  lemma {:induction false} SearchUrlPageReadBack(keywords: string, state: string, p: nat)
    ensures var pre := SearchPrefix(keywords, state);
      var u := SearchUrl(keywords, state, p);
      var digits := u[|pre|..|u| - 10];
      AllDigits(digits) && DigitsValue(digits) == p
  {
    var pre := SearchPrefix(keywords, state);
    var u := SearchUrl(keywords, state, p);
    assert u[|pre|..|u| - 10] == NatToString(p);
    NatToStringRoundTrip(p);
  }

  /** The exclusive page bound: the second token of the heading read as an
      integer, floor-divided by 15, plus 2; `None` when the heading has fewer
      than two tokens or its second token is not an integer (both raise). */
  function Pagination(heading: string): (r: Option<int>)
    ensures r.Some? ==> |Words(heading)| >= 2 && ParseInt(Words(heading)[1]).Some?
  {
    var ws := Words(heading);
    if |ws| < 2 then None
    else match ParseInt(ws[1])
      case None => None
      // Python's `//` floors; Dafny's `/` agrees for a positive divisor.
      case Some(n) => Some(n / 15 + 2)
  }

  /** Python's `range(lo, hi)`. */
  function Range(lo: nat, hi: int): (r: seq<nat>)
    ensures |r| == if lo < hi then hi - lo else 0
    ensures forall i :: 0 <= i < |r| ==> r[i] == lo + i
    decreases hi - lo
  {
    if lo < hi then [lo] + Range(lo + 1, hi) else []
  }

  /** The pages fetched: page 1, then `range(2, pagination)`. */
  function Pages(pagination: int): (ps: seq<nat>)
  {
    [1] + Range(2, pagination)
  }

  /** For a result count `n`, the pages are exactly 1 .. n / 15 + 1, each once,
      in ascending order, and the page `k / 15 + 1` that holds the `k`-th
      result (15 to a page) is among them. */
  lemma {:induction false} PagesOfCount(n: nat)
    ensures var ps := Pages(n / 15 + 2);
      && |ps| == n / 15 + 1
      && (forall i :: 0 <= i < |ps| ==> ps[i] == i + 1)
      && (forall i, j :: 0 <= i < j < |ps| ==> ps[i] < ps[j])
      && (forall k :: 0 <= k < n ==> k / 15 + 1 in ps)
  {
    var ps := Pages(n / 15 + 2);
    assert forall i :: 0 <= i < |ps| ==> ps[i] == i + 1;
    forall k | 0 <= k < n ensures k / 15 + 1 in ps {
      assert k / 15 <= n / 15;
      assert ps[k / 15] == k / 15 + 1;
    }
  }

  /** A count of 123 gives pages 1 to 9. */
  lemma {:induction false} PagesOf123()
    ensures Pages(123 / 15 + 2) == [1, 2, 3, 4, 5, 6, 7, 8, 9]
  {
    PagesOfCount(123);
  }

  /** The second token of `first second rest`, where `rest` is empty or
      starts with whitespace, is `second`. */
  lemma {:induction false} SecondWord(first: string, second: string, rest: string)
    requires |first| > 0 && NoSpace(first)
    requires |second| > 0 && NoSpace(second)
    requires |rest| == 0 || IsSpace(rest[0])
    ensures var ws := Words(first + " " + second + rest); |ws| >= 2 && ws[1] == second
  {
    assert first + " " + second + rest == first + (" " + (second + rest));
    WordsCons(first, " " + (second + rest));
    WordsSkipSpace(" ", second + rest);
    WordsCons(second, rest);
  }

  /** A heading whose second token is not a number stops the discovery. */
  lemma {:induction false} PaginationNeedsNumber(first: string, second: string)
    requires |first| > 0 && NoSpace(first)
    requires |second| > 0 && NoSpace(second)
    requires ParseInt(second).None?
    ensures Pagination(first + " " + second).None?
  {
    SecondWord(first, second, "");
    assert first + " " + second + "" == first + " " + second;
  }

  /** A heading whose second token is the decimal count `n` gives the page
      bound `n // 15 + 2`, whatever follows the count. */
  lemma {:induction false} PaginationOfCount(first: string, n: nat, rest: string)
    requires |first| > 0 && NoSpace(first)
    requires |rest| == 0 || IsSpace(rest[0])
    ensures Pagination(first + " " + NatToString(n) + rest) == Some(n / 15 + 2)
  {
    var count := NatToString(n);
    assert NoSpace(count) by {
      forall i | 0 <= i < |count| ensures !IsSpace(count[i]) {
        assert IsDigit(count[i]);
      }
    }
    SecondWord(first, count, rest);
    ParseIntRoundTrip(n);
  }

  /** Discovery on a heading that reports `n` results visits the pages
      1 to `n // 15 + 1`, in order. */
  lemma {:induction false} GetUrlsOfCount(fetch: string -> ResultsPage, keywords: string, state: string,
                                          first: string, n: nat, rest: string)
    requires |first| > 0 && NoSpace(first)
    requires |rest| == 0 || IsSpace(rest[0])
    requires fetch(SearchUrl(keywords, state, 1)).heading == Some(first + " " + NatToString(n) + rest)
    ensures GetUrls(fetch, keywords, state) == CollectPages(fetch, keywords, state, Range(1, n / 15 + 2))
  {
    PaginationOfCount(first, n, rest);
    GetUrlsIsAllPages(fetch, keywords, state);
    PagesOfCount(n);
    assert Pages(n / 15 + 2) == Range(1, n / 15 + 2);
  }

  /** The links of the given pages, in page order; `None` as soon as a page
      has a link without `href`. */
  function CollectPages(fetch: string -> ResultsPage, keywords: string, state: string, pages: seq<nat>)
    : (r: Option<seq<string>>)
    decreases |pages|
  {
    if |pages| == 0 then Some([])
    else
      var here := BusinessUrls(fetch(SearchUrl(keywords, state, pages[0])).hrefs);
      var rest := CollectPages(fetch, keywords, state, pages[1..]);
      if here.Some? && rest.Some? then Some(here.value + rest.value) else None
  }

  /** Total number of listing links on the given pages. */
  function LinkCount(fetch: string -> ResultsPage, keywords: string, state: string, pages: seq<nat>): nat
    decreases |pages|
  {
    if |pages| == 0 then 0
    else |fetch(SearchUrl(keywords, state, pages[0])).hrefs| + LinkCount(fetch, keywords, state, pages[1..])
  }

  /** Nothing is merged across pages: every link of every page is kept. */
  lemma {:induction false} CollectPagesLength(fetch: string -> ResultsPage, keywords: string, state: string, pages: seq<nat>)
    requires CollectPages(fetch, keywords, state, pages).Some?
    ensures |CollectPages(fetch, keywords, state, pages).value| == LinkCount(fetch, keywords, state, pages)
    decreases |pages|
  {
    if |pages| > 0 {
      CollectPagesLength(fetch, keywords, state, pages[1..]);
    }
  }

  /** Links of earlier pages come before links of later pages. */
  lemma {:induction false} CollectPagesAppend(fetch: string -> ResultsPage, keywords: string, state: string,
                                              a: seq<nat>, b: seq<nat>)
    requires CollectPages(fetch, keywords, state, a).Some?
    requires CollectPages(fetch, keywords, state, b).Some?
    ensures CollectPages(fetch, keywords, state, a + b)
         == Some(CollectPages(fetch, keywords, state, a).value + CollectPages(fetch, keywords, state, b).value)
    decreases |a|
  {
    if |a| == 0 {
      assert a + b == b;
      assert [] + CollectPages(fetch, keywords, state, b).value == CollectPages(fetch, keywords, state, b).value;
    } else {
      AppendHeadTail(a, b);
      CollectPagesAppend(fetch, keywords, state, a[1..], b);
      AppendAssoc(BusinessUrls(fetch(SearchUrl(keywords, state, a[0])).hrefs).value,
                  CollectPages(fetch, keywords, state, a[1..]).value,
                  CollectPages(fetch, keywords, state, b).value);
    }
  }

  /** `get_urls`: read the count from page 1, then collect the links of
      page 1 and of every further page. `None` stands for any exception. */
  function GetUrls(fetch: string -> ResultsPage, keywords: string, state: string): (r: Option<seq<string>>)
  {
    var first := fetch(SearchUrl(keywords, state, 1));
    if first.heading.None? then None
    else match Pagination(first.heading.value)
      case None => None
      case Some(pagination) =>
        var here := BusinessUrls(first.hrefs);
        var rest := CollectPages(fetch, keywords, state, Range(2, pagination));
        if here.Some? && rest.Some? then Some(here.value + rest.value) else None
  }

  /** Discovery is the links of exactly the pages `Pages(pagination)`, in
      order, when the heading can be read. */
  lemma {:induction false} GetUrlsIsAllPages(fetch: string -> ResultsPage, keywords: string, state: string)
    requires fetch(SearchUrl(keywords, state, 1)).heading.Some?
    requires Pagination(fetch(SearchUrl(keywords, state, 1)).heading.value).Some?
    ensures GetUrls(fetch, keywords, state)
         == CollectPages(fetch, keywords, state, Pages(Pagination(fetch(SearchUrl(keywords, state, 1)).heading.value).value))
  {
    var pag := Pagination(fetch(SearchUrl(keywords, state, 1)).heading.value).value;
    var ps := Pages(pag);
    assert ps[0] == 1 && ps[1..] == Range(2, pag);
  }

  /** Every discovered link starts with the site origin. */
  lemma {:induction false} CollectedLinksPrefixed(fetch: string -> ResultsPage, keywords: string, state: string, pages: seq<nat>)
    requires CollectPages(fetch, keywords, state, pages).Some?
    ensures forall i :: 0 <= i < |CollectPages(fetch, keywords, state, pages).value| ==>
      var u := CollectPages(fetch, keywords, state, pages).value[i];
      |u| >= |BbbOrigin| && u[..|BbbOrigin|] == BbbOrigin
    decreases |pages|
  {
    if |pages| > 0 {
      CollectedLinksPrefixed(fetch, keywords, state, pages[1..]);
      PrefixLinksSpec(BbbOrigin, fetch(SearchUrl(keywords, state, pages[0])).hrefs);
    }
  }
}
