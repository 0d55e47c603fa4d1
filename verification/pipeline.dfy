/** The assembly of the scraper: the per-business pass of `run_demo` (crawl,
    zip code, owner lookups, contact rows) and the run of the scraping worker
    (discovery, the cap of three businesses, the progress values and the
    duplicate-free CSV table). Every fetch and request is a parameter. */
module Pipeline {
  import opened Options
  import opened Text
  import opened Decimal
  import opened Seqs
  import opened Names
  import opened BusinessPage
  import opened Directory
  import opened People

  /** What the local language model gives for a page text: `Unreachable`
      when the request itself raises; otherwise the owner and title of its
      reply, `""` each when the reply is not 200, holds no JSON object or
      does not decode. */
  datatype LlmReply = Unreachable | Reply(owner: string, title: string)

  /** The outside world as the scraper sees it. */
  datatype Services = Services(
    /** The BBB search-results page at a URL. */
    results: string -> ResultsPage,
    /** The BBB profile page at a URL; `None` when the browser raises. */
    profile: string -> Option<Page>,
    /** The model's answer for a profile's page text. */
    llm: string -> LlmReply,
    /** The people search by name slug and zip code. */
    search: Search,
    /** The person profile by person id; `None` when the request raises. */
    person: string -> Option<PersonPage>)

  // ---------------------------------------------------------------------------
  // Owner lookups

  /** The fallback dictionary `{"owner0": owner, "title": title}`. */
  function LlmDict(owner: string, title: string): map<string, string> {
    map["owner0" := owner, "title" := title]
  }

  /** The fallback dictionary has two keys, so the lookups read `owner0` and
      the missing `owner1`: the owner and the empty string. */
  lemma {:induction false} LlmDictRaws(owner: string, title: string)
    ensures ReadOwners(LlmDict(owner, title)) == [owner, ""]
  {
    var d := LlmDict(owner, title);
    assert "owner0" != "title";
    assert |d| == 2;
    assert NatToString(0) == "0";
    assert NatToString(1) == "1";
    assert OwnerKey(0) == "owner0";
    assert OwnerKey(1) == "owner1";
    assert OwnerKey(1) !in d;
  }

  /** A raw contact string and the profile links found for it. */
  datatype Entry = Entry(raw: string, urls: seq<string>)

  function EntryKeys(es: seq<Entry>): (ks: seq<string>)
    ensures |ks| == |es| && forall i :: 0 <= i < |es| ==> ks[i] == es[i].raw
  {
    seq(|es|, i requires 0 <= i < |es| => es[i].raw)
  }

  /** The profile links for a raw contact string; `None` when the lookup raises. */
  type Finder = string -> Option<seq<string>>

  /** The people search of `run_demo`: the cleaned owner name and the zip code. */
  function OwnerFinder(search: Search, zip: string): Finder {
    raw => OwnerLookup(search, zip, raw)
  }

  /** The search for one raw contact string: its cleaned owner name (the
      text before the first comma) and the zip code. */
  function OwnerLookup(search: Search, zip: string, raw: string): Option<seq<string>> {
    PeopleUrls(search, OwnerName(raw), zip)
  }

  /** The lookup of a raw string succeeds. */
  function Hit(find: Finder): string -> bool {
    raw => find(raw).Some?
  }

  /** One turn of the lookup loop: a string already looked up is skipped;
      otherwise it is looked up, and a lookup that raises leaves it out. */
  function LookupStep(done: seq<Entry>, raw: string, find: Finder): seq<Entry>
  {
    if raw in EntryKeys(done) then done
    else match find(raw)
      case None => done
      case Some(urls) => done + [Entry(raw, urls)]
  }

  /** The lookup loop of `run_demo` over the raw strings, left to right; the
      entries are the dictionary `people_urls` in insertion order. */
  function Lookups(raws: seq<string>, find: Finder): seq<Entry>
    decreases |raws|
  {
    if |raws| == 0 then []
    else LookupStep(Lookups(raws[..|raws| - 1], find), raws[|raws| - 1], find)
  }

  lemma {:induction false} EntryKeysSnoc(d: seq<Entry>, e: Entry)
    ensures EntryKeys(d + [e]) == EntryKeys(d) + [e.raw]
  {
    var l := EntryKeys(d + [e]);
    var r := EntryKeys(d) + [e.raw];
    assert |l| == |r|;
    forall i | 0 <= i < |l| ensures l[i] == r[i] {
      if i < |d| {
        assert (d + [e])[i] == d[i];
      }
    }
  }

  /** The keys after one more turn of the loop, given the keys before it. */
  lemma {:induction false} LookupStepKeys(s: seq<string>, x: string, d: seq<Entry>, find: Finder)
    requires EntryKeys(d) == Filter(Dedup(s), Hit(find))
    ensures EntryKeys(LookupStep(d, x, find)) == Filter(Dedup(s + [x]), Hit(find))
  {
    var keep := Hit(find);
    assert keep(x) == find(x).Some?;
    FilterMember(Dedup(s), keep, x);
    DedupMember(s, x);
    DedupSnoc(s, x);
    if x in s {
      assert x in EntryKeys(d) <==> find(x).Some?;
    } else {
      assert x !in EntryKeys(d);
      FilterSnoc(Dedup(s), x, keep);
      if find(x).Some? {
        EntryKeysSnoc(d, Entry(x, find(x).value));
      }
    }
  }

  /** The strings looked up are the distinct raw strings, in first-occurrence
      order, whose lookup succeeds. */
  lemma {:induction false} LookupsKeys(raws: seq<string>, find: Finder)
    ensures EntryKeys(Lookups(raws, find)) == Filter(Dedup(raws), Hit(find))
    decreases |raws|
  {
    if |raws| > 0 {
      var n := |raws| - 1;
      LookupsKeys(raws[..n], find);
      assert raws == raws[..n] + [raws[n]];
      LookupStepKeys(raws[..n], raws[n], Lookups(raws[..n], find), find);
    }
  }

  /** Each string looked up is one of the raw strings and carries the links
      of its own lookup. */
  lemma {:induction false} LookupsLinks(raws: seq<string>, find: Finder)
    ensures forall e :: e in Lookups(raws, find) ==> e.raw in raws && find(e.raw) == Some(e.urls)
    decreases |raws|
  {
    if |raws| > 0 {
      LookupsLinks(raws[..|raws| - 1], find);
    }
  }

  /** With the fallback dictionary the empty string is looked up too, as soon
      as its lookup succeeds. */
  lemma {:induction false} FallbackLooksUpEmpty(owner: string, title: string, find: Finder)
    requires find("").Some?
    ensures "" in EntryKeys(Lookups(ReadOwners(LlmDict(owner, title)), find))
  {
    var raws := ReadOwners(LlmDict(owner, title));
    LlmDictRaws(owner, title);
    LookupsKeys(raws, find);
    DedupMember(raws, "");
    FilterMember(Dedup(raws), Hit(find), "");
  }

  // ---------------------------------------------------------------------------
  // Contact rows of one business

  /** The row of one profile link: the profile of the link's person id,
      empty when the profile fails or is incomplete. */
  function LinkRow(person: string -> Option<PersonPage>, businessName: string, startDate: Option<string>,
                   position: Option<string>, url: string): Row
  {
    PersonDetails(person(PersonId(url)), businessName, startDate, position)
  }

  /** The nonempty rows of the links, in link order: an empty row is dropped. */
  function UrlRows(urls: seq<string>, row: string -> Row): seq<Row>
    decreases |urls|
  {
    if |urls| == 0 then []
    else (if |row(urls[0])| > 0 then [row(urls[0])] else []) + UrlRows(urls[1..], row)
  }

  /** The row builder of one entry: the position is the text after the last
      comma of its raw contact string. */
  function EntryRow(e: Entry, person: string -> Option<PersonPage>, businessName: string,
                    startDate: Option<string>): string -> Row
  {
    url => LinkRow(person, businessName, startDate, Position(e.raw), url)
  }

  /** The rows of one entry, one per link whose profile is complete. */
  function EntryRows(e: Entry, person: string -> Option<PersonPage>, businessName: string,
                     startDate: Option<string>): seq<Row>
  {
    UrlRows(e.urls, EntryRow(e, person, businessName, startDate))
  }

  /** The rows of all entries, entry after entry. */
  function PersonRows(es: seq<Entry>, person: string -> Option<PersonPage>, businessName: string,
                      startDate: Option<string>): seq<Row>
    decreases |es|
  {
    if |es| == 0 then []
    else EntryRows(es[0], person, businessName, startDate) + PersonRows(es[1..], person, businessName, startDate)
  }

  /** `run_demo` for one business URL; the empty list whenever the crawl,
      the zip code or the language model raises. */
  function RunDemo(url: string, sv: Services): seq<Row>
  {
    match sv.profile(url)
    case None => []
    case Some(page) =>
      match CrawlPage(page)
      case None => []
      case Some(c) =>
        match ZipCode(c.address)
        case None => []
        case Some(zip) => CrawledRows(page, c, zip, sv)
  }

  /** A business whose profile cannot be fetched gives no rows. */
  lemma {:induction false} RunDemoNoProfile(url: string, sv: Services)
    requires sv.profile(url).None?
    ensures RunDemo(url, sv) == []
  {
  }

  /** A business whose profile lacks the address, the business name or a
      start-date value gives no rows. */
  lemma {:induction false} RunDemoNoCrawl(url: string, sv: Services)
    requires sv.profile(url).Some? && CrawlPage(sv.profile(url).value).None?
    ensures RunDemo(url, sv) == []
  {
  }

  /** A business whose address has no token gives no rows. */
  lemma {:induction false} RunDemoNoZip(url: string, sv: Services)
    requires sv.profile(url).Some? && CrawlPage(sv.profile(url).value).Some?
    requires ZipCode(CrawlPage(sv.profile(url).value).value.address).None?
    ensures RunDemo(url, sv) == []
  {
  }

  /** Otherwise the rows are those of the crawled business and its zip code. */
  lemma {:induction false} RunDemoCrawled(url: string, sv: Services, page: Page, c: Crawl, zip: string)
    requires sv.profile(url) == Some(page) && CrawlPage(page) == Some(c) && ZipCode(c.address) == Some(zip)
    ensures RunDemo(url, sv) == CrawledRows(page, c, zip, sv)
  {
  }

  /** A row that is nonempty and names the business and its start date. */
  predicate CarriesBusiness(r: Row, businessName: string, startDate: Option<string>) {
    && |r| > 0
    && "Business Name" in r && r["Business Name"] == Str(businessName)
    && "Business Start Date" in r && r["Business Start Date"] == OptCell(startDate)
  }

  /** A row built from a complete profile carries the business name and start date. */
  lemma {:induction false} RowCarriesBusiness(page: Option<PersonPage>, businessName: string, startDate: Option<string>,
                           position: Option<string>)
    requires |PersonDetails(page, businessName, startDate, position)| > 0
    ensures CarriesBusiness(PersonDetails(page, businessName, startDate, position), businessName, startDate)
  {
    var p := page.value;
    FixedFieldsKept(p, businessName, startDate, position);
    var fixed := FixedFields(p, businessName, startDate, position);
    assert "Business Name" in fixed && fixed["Business Name"] == Str(businessName);
    assert "Business Start Date" in fixed && fixed["Business Start Date"] == OptCell(startDate);
  }

  /** Every row built for a business is nonempty and carries the business
      name and start date. */
  lemma {:induction false} PersonRowsCarryBusiness(es: seq<Entry>, person: string -> Option<PersonPage>,
                                businessName: string, startDate: Option<string>)
    ensures forall r :: r in PersonRows(es, person, businessName, startDate) ==> CarriesBusiness(r, businessName, startDate)
  {
    forall r | r in PersonRows(es, person, businessName, startDate)
      ensures CarriesBusiness(r, businessName, startDate)
    {
      PersonRowCarriesBusiness(es, person, businessName, startDate, r);
    }
  }

  lemma {:induction false} PersonRowCarriesBusiness(es: seq<Entry>, person: string -> Option<PersonPage>,
                                 businessName: string, startDate: Option<string>, r: Row)
    requires r in PersonRows(es, person, businessName, startDate)
    ensures CarriesBusiness(r, businessName, startDate)
  {
    PersonRowsSpec(es, person, businessName, startDate, r);
    var i :| 0 <= i < |es| && FromEntry(es[i], person, businessName, startDate, r);
    var k :| 0 <= k < |es[i].urls| && r == LinkRow(person, businessName, startDate, Position(es[i].raw), es[i].urls[k]);
    RowCarriesBusiness(person(PersonId(es[i].urls[k])), businessName, startDate, Position(es[i].raw));
  }

  /** `r` is the row built from one of the links of entry `e`. */
  predicate FromEntry(e: Entry, person: string -> Option<PersonPage>, businessName: string,
                      startDate: Option<string>, r: Row)
  {
    exists k :: 0 <= k < |e.urls| && r == LinkRow(person, businessName, startDate, Position(e.raw), e.urls[k])
  }

  /** `r` is the row built from a link of one of the entries. */
  predicate FromEntries(es: seq<Entry>, person: string -> Option<PersonPage>, businessName: string,
                        startDate: Option<string>, r: Row)
  {
    exists i :: 0 <= i < |es| && FromEntry(es[i], person, businessName, startDate, r)
  }

  /** `r` is the row of one of the links. */
  predicate FromUrls(urls: seq<string>, row: string -> Row, r: Row) {
    exists k :: 0 <= k < |urls| && r == row(urls[k])
  }

  /** The rows of a list of links are exactly the nonempty rows built from
      them: a profile that fails or is incomplete skips only its own link. */
  lemma {:induction false} UrlRowsSpec(urls: seq<string>, row: string -> Row, r: Row)
    ensures r in UrlRows(urls, row) <==> |r| > 0 && FromUrls(urls, row, r)
    decreases |urls|
  {
    if |urls| > 0 {
      var tail := urls[1..];
      UrlRowsSpec(tail, row, r);
      if FromUrls(urls, row, r) {
        var k :| 0 <= k < |urls| && r == row(urls[k]);
        if k > 0 {
          assert tail[k - 1] == urls[k];
        }
      }
      if FromUrls(tail, row, r) {
        var k :| 0 <= k < |tail| && r == row(tail[k]);
        assert urls[k + 1] == tail[k];
      }
    }
  }

  /** The rows of one entry are the nonempty rows of its links. */
  lemma {:induction false} EntryRowsSpec(e: Entry, person: string -> Option<PersonPage>, businessName: string,
                                         startDate: Option<string>, r: Row)
    ensures r in EntryRows(e, person, businessName, startDate) <==>
      |r| > 0 && FromEntry(e, person, businessName, startDate, r)
  {
    var row := EntryRow(e, person, businessName, startDate);
    UrlRowsSpec(e.urls, row, r);
    if FromUrls(e.urls, row, r) {
      var k :| 0 <= k < |e.urls| && r == row(e.urls[k]);
      assert r == LinkRow(person, businessName, startDate, Position(e.raw), e.urls[k]);
    }
    if FromEntry(e, person, businessName, startDate, r) {
      var k :| 0 <= k < |e.urls| && r == LinkRow(person, businessName, startDate, Position(e.raw), e.urls[k]);
      assert r == row(e.urls[k]);
    }
  }

  /** `r` is a row of one of the entries. */
  predicate InEntryRows(es: seq<Entry>, person: string -> Option<PersonPage>, businessName: string,
                        startDate: Option<string>, r: Row)
  {
    exists i :: 0 <= i < |es| && r in EntryRows(es[i], person, businessName, startDate)
  }

  /** The rows of all entries are the rows of each entry. */
  lemma {:induction false} PersonRowsMember(es: seq<Entry>, person: string -> Option<PersonPage>,
                                            businessName: string, startDate: Option<string>, r: Row)
    ensures r in PersonRows(es, person, businessName, startDate) <==>
      InEntryRows(es, person, businessName, startDate, r)
    decreases |es|
  {
    if |es| > 0 {
      var tail := es[1..];
      PersonRowsMember(tail, person, businessName, startDate, r);
      if InEntryRows(es, person, businessName, startDate, r) {
        var i :| 0 <= i < |es| && r in EntryRows(es[i], person, businessName, startDate);
        if i > 0 {
          assert tail[i - 1] == es[i];
        }
      }
      if InEntryRows(tail, person, businessName, startDate, r) {
        var i :| 0 <= i < |tail| && r in EntryRows(tail[i], person, businessName, startDate);
        assert es[i + 1] == tail[i];
      }
    }
  }

  /** The rows of all entries are exactly the nonempty rows built from the
      links of some entry. */
  lemma {:induction false} PersonRowsSpec(es: seq<Entry>, person: string -> Option<PersonPage>,
                                          businessName: string, startDate: Option<string>, r: Row)
    ensures r in PersonRows(es, person, businessName, startDate) <==>
      |r| > 0 && FromEntries(es, person, businessName, startDate, r)
  {
    PersonRowsMember(es, person, businessName, startDate, r);
    if InEntryRows(es, person, businessName, startDate, r) {
      var i :| 0 <= i < |es| && r in EntryRows(es[i], person, businessName, startDate);
      EntryRowsSpec(es[i], person, businessName, startDate, r);
    }
    if |r| > 0 && FromEntries(es, person, businessName, startDate, r) {
      var i :| 0 <= i < |es| && FromEntry(es[i], person, businessName, startDate, r);
      EntryRowsSpec(es[i], person, businessName, startDate, r);
    }
  }

  /** The raw contact strings of a crawled business: the contacts listed on
      its page, in order, else the language model's owner and the empty
      string (the missing `owner1` of its two-key answer); `None` when the
      model is unreachable. */
  function OwnerRaws(page: Page, c: Crawl, llm: string -> LlmReply): Option<seq<string>>
  {
    if c.owners.Some? then Some(ReadOwners(c.owners.value))
    else match llm(page.text)
      case Unreachable => None
      case Reply(o, t) => Some(ReadOwners(LlmDict(o, t)))
  }

  /** The contacts listed on the page are used when there are any; otherwise
      the language model's owner and `""`, and nothing when the model is
      unreachable. */
  lemma {:induction false} OwnerRawsSpec(page: Page, c: Crawl, llm: string -> LlmReply)
    ensures CrawlPage(page) == Some(c) && c.owners.Some? ==>
      OwnerRaws(page, c, llm) == Some(ContactTexts(page.sections))
    ensures c.owners.None? ==>
      (llm(page.text).Unreachable? <==> OwnerRaws(page, c, llm).None?) &&
      (llm(page.text).Reply? ==> OwnerRaws(page, c, llm) == Some([llm(page.text).owner, ""]))
  {
    if c.owners.Some? {
      ReadOwnersRoundTrip(ContactTexts(page.sections));
    } else if llm(page.text).Reply? {
      LlmDictRaws(llm(page.text).owner, llm(page.text).title);
    }
  }

  /** The rest of `run_demo` once the page is crawled and the zip code read,
      given the raw contact strings (`None` when the language model was
      needed and raised) and the people search `find` by raw string: the
      owners are looked up, and every profile found gives a row. */
  function BusinessRows(raws: Option<seq<string>>, find: Finder, person: string -> Option<PersonPage>,
                        businessName: string, startDate: Option<string>): seq<Row>
  {
    match raws
    case None => []
    case Some(rs) => PersonRows(Lookups(rs, find), person, businessName, startDate)
  }

  /** The rows of a crawled business with zip code `zip`: its raw contact
      strings are looked up by cleaned name and zip code. */
  function CrawledRows(page: Page, c: Crawl, zip: string, sv: Services): seq<Row>
  {
    BusinessRows(OwnerRaws(page, c, sv.llm), OwnerFinder(sv.search, zip), sv.person, c.businessName, c.startDate)
  }

  /** The rows of a business: nothing when the language model was needed and
      raised; otherwise exactly the nonempty rows built from the links found
      for the looked-up owners, so a lookup or a profile that fails skips
      only its own item. */
  lemma {:induction false} BusinessRowsSpec(raws: Option<seq<string>>, find: Finder, person: string -> Option<PersonPage>,
                                            businessName: string, startDate: Option<string>, r: Row)
    ensures raws.None? ==> BusinessRows(raws, find, person, businessName, startDate) == []
    ensures raws.Some? ==>
      (r in BusinessRows(raws, find, person, businessName, startDate) <==>
        |r| > 0 && FromEntries(Lookups(raws.value, find), person, businessName, startDate, r))
  {
    if raws.Some? {
      PersonRowsSpec(Lookups(raws.value, find), person, businessName, startDate, r);
    }
  }

  /** Every row of a business carries its name and start date. */
  lemma {:induction false} BusinessRowsCarry(raws: Option<seq<string>>, find: Finder, person: string -> Option<PersonPage>,
                                             businessName: string, startDate: Option<string>)
    ensures forall r :: r in BusinessRows(raws, find, person, businessName, startDate) ==>
      CarriesBusiness(r, businessName, startDate)
  {
    if raws.Some? {
      PersonRowsCarryBusiness(Lookups(raws.value, find), person, businessName, startDate);
    }
  }

  /** When the language model was needed and is unreachable the business
      gives no rows. */
  lemma {:induction false} RunDemoUnreachable(url: string, sv: Services, page: Page, c: Crawl, zip: string)
    requires sv.profile(url) == Some(page) && CrawlPage(page) == Some(c) && ZipCode(c.address) == Some(zip)
    requires c.owners.None? && sv.llm(page.text).Unreachable?
    ensures RunDemo(url, sv) == []
  {
    RunDemoCrawled(url, sv, page, c, zip);
    OwnerRawsSpec(page, c, sv.llm);
  }

  /** Otherwise the rows of a business are exactly the nonempty rows built
      from a link found for one of its looked-up owners. */
  lemma {:induction false} RunDemoRows(url: string, sv: Services, page: Page, c: Crawl, zip: string,
                                       raws: seq<string>, r: Row)
    requires sv.profile(url) == Some(page) && CrawlPage(page) == Some(c) && ZipCode(c.address) == Some(zip)
    requires OwnerRaws(page, c, sv.llm) == Some(raws)
    ensures r in RunDemo(url, sv) <==>
      |r| > 0 && FromEntries(Lookups(raws, OwnerFinder(sv.search, zip)), sv.person, c.businessName, c.startDate, r)
  {
    RunDemoCrawled(url, sv, page, c, zip);
    BusinessRowsSpec(Some(raws), OwnerFinder(sv.search, zip), sv.person, c.businessName, c.startDate, r);
  }

  /** `r` is the row of a link that `find` gives for one of the raw strings. */
  ghost predicate FoundRow(raws: seq<string>, find: Finder, person: string -> Option<PersonPage>, businessName: string,
                     startDate: Option<string>, r: Row)
  {
    exists raw, urls, k ::
      && raw in raws
      && find(raw) == Some(urls)
      && 0 <= k < |urls|
      && r == LinkRow(person, businessName, startDate, Position(raw), urls[k])
  }

  /** Every row of the looked-up owners is the row of a link found for one
      of the raw contact strings. */
  lemma {:induction false} LookedUpRowSource(raws: seq<string>, find: Finder, person: string -> Option<PersonPage>,
                                             businessName: string, startDate: Option<string>, r: Row)
    requires r in PersonRows(Lookups(raws, find), person, businessName, startDate)
    ensures FoundRow(raws, find, person, businessName, startDate, r)
  {
    var es := Lookups(raws, find);
    PersonRowsSpec(es, person, businessName, startDate, r);
    var i :| 0 <= i < |es| && FromEntry(es[i], person, businessName, startDate, r);
    LookupsLinks(raws, find);
    assert es[i] in es;
    EntryRowFound(raws, find, es[i], person, businessName, startDate, r);
  }

  lemma {:induction false} EntryRowFound(raws: seq<string>, find: Finder, e: Entry, person: string -> Option<PersonPage>,
                                         businessName: string, startDate: Option<string>, r: Row)
    requires e.raw in raws && find(e.raw) == Some(e.urls)
    requires FromEntry(e, person, businessName, startDate, r)
    ensures FoundRow(raws, find, person, businessName, startDate, r)
  {
    var k :| 0 <= k < |e.urls| && r == LinkRow(person, businessName, startDate, Position(e.raw), e.urls[k]);
  }

  /** Every row of a business comes from a raw contact string of the
      business, a link the people search gives for its cleaned name and the
      zip code, and the profile of that link. */
  lemma {:induction false} RunDemoRowSource(url: string, sv: Services, page: Page, c: Crawl, zip: string,
                                            raws: seq<string>, r: Row)
    requires sv.profile(url) == Some(page) && CrawlPage(page) == Some(c) && ZipCode(c.address) == Some(zip)
    requires OwnerRaws(page, c, sv.llm) == Some(raws)
    requires r in RunDemo(url, sv)
    ensures exists raw, urls, k ::
      && raw in raws
      && PeopleUrls(sv.search, OwnerName(raw), zip) == Some(urls)
      && 0 <= k < |urls|
      && r == PersonDetails(sv.person(PersonId(urls[k])), c.businessName, c.startDate, Position(raw))
  {
    var find := OwnerFinder(sv.search, zip);
    RunDemoCrawled(url, sv, page, c, zip);
    LookedUpRowSource(raws, find, sv.person, c.businessName, c.startDate, r);
    var raw, urls, k :| raw in raws && find(raw) == Some(urls) && 0 <= k < |urls|
      && r == LinkRow(sv.person, c.businessName, c.startDate, Position(raw), urls[k]);
    assert OwnerLookup(sv.search, zip, raw) == Some(urls);
  }

  /** Every row `run_demo` returns carries the name and start date of the
      crawled business. */
  lemma {:induction false} RunDemoCarriesBusiness(url: string, sv: Services, page: Page, c: Crawl)
    requires sv.profile(url) == Some(page) && CrawlPage(page) == Some(c)
    ensures forall r :: r in RunDemo(url, sv) ==> CarriesBusiness(r, c.businessName, c.startDate)
  {
    match ZipCode(c.address)
    case None => RunDemoNoZip(url, sv);
    case Some(zip) =>
      RunDemoCrawled(url, sv, page, c, zip);
      BusinessRowsCarry(OwnerRaws(page, c, sv.llm), OwnerFinder(sv.search, zip), sv.person, c.businessName, c.startDate);
  }

  // ---------------------------------------------------------------------------
  // The worker's run

  /** Progress after business `i` (from 0) of `total`: 20, plus the share of
      businesses done scaled to 80 and truncated. */
  function BusinessProgress(i: nat, total: nat): int
    requires 0 < total
  {
    20 + (i + 1) * 80 / total
  }

  /** Python's `int` of a nonnegative quotient is the floor of the real one. */
  lemma {:induction false} RealQuotientFloor(n: nat, d: nat)
    requires 0 < d
    ensures (n as real / d as real).Floor == n / d
  {
    var q := n / d;
    var x := n as real / d as real;
    CastDivMod(n, d);
    UnitInterval(x - q as real, d as real, (n % d) as real);
    FloorUnique(x, q);
  }

  lemma {:induction false} CastDivMod(n: nat, d: nat)
    requires 0 < d
    ensures (n as real / d as real - (n / d) as real) * d as real == (n % d) as real
  {
    var q := n / d;
    var r := n % d;
    assert n == q * d + r;
    assert n as real == q as real * d as real + r as real;
    var x := n as real / d as real;
    assert x * d as real == n as real;
  }

  lemma {:induction false} FloorUnique(x: real, q: int)
    requires q as real <= x < q as real + 1.0
    ensures x.Floor == q
  {
    var f := x.Floor;
    assert f as real <= x < f as real + 1.0;
  }

  lemma {:induction false} UnitInterval(y: real, d: real, r: real)
    requires 0.0 <= r < d && y * d == r
    ensures 0.0 <= y < 1.0
  {
    ScaleBounds(y, d);
  }

  lemma {:induction false} ScaleBounds(y: real, d: real)
    requires 0.0 < d
    ensures y < 0.0 ==> y * d < 0.0
    ensures y >= 1.0 ==> y * d >= d
  {
    if y >= 1.0 {
      assert y * d - d == (y - 1.0) * d;
    }
  }

  /** The integer formula is Python's truncated floating-point one, taken over
      the reals. */
  lemma {:induction false} BusinessProgressIsTruncatedQuotient(i: nat, total: nat)
    requires 0 < total
    ensures BusinessProgress(i, total) == 20 + ((i + 1) as real / total as real * 80.0).Floor
  {
    var a := (i + 1) as real;
    var t := total as real;
    assert a / t * 80.0 == (a * 80.0) / t;
    assert a * 80.0 == ((i + 1) * 80) as real;
    RealQuotientFloor((i + 1) * 80, total);
  }

  /** With at most three businesses the per-business progress values strictly
      increase, stay within 20 and 100, and the last is 100. */
  lemma {:induction false} ProgressIncreases(total: nat)
    requires 1 <= total <= 3
    ensures forall i, j :: 0 <= i < j < total ==> BusinessProgress(i, total) < BusinessProgress(j, total)
    ensures BusinessProgress(total - 1, total) == 100
    ensures forall i :: 0 <= i < total ==> 20 < BusinessProgress(i, total) <= 100
  {
    assert total == 1 || total == 2 || total == 3;
  }

  /** The CSV columns: every key of every row. */
  function Columns(rows: seq<Row>): set<string> {
    set i, k | 0 <= i < |rows| && k in rows[i] :: k
  }

  /** The cell of a column, `Null` when the row lacks it (pandas' `NaN`,
      which `drop_duplicates` treats like `None`). */
  function Get(r: Row, c: string): Cell {
    if c in r then r[c] else Null
  }

  /** A row as a line of the table over the given columns. */
  function Widen(r: Row, cols: set<string>): (w: Row)
    ensures w.Keys == cols
  {
    map c | c in cols :: Get(r, c)
  }

  /** Two rows give the same table line exactly when they agree on every
      column, a missing cell and a `None` cell alike. */
  lemma {:induction false} WidenEqual(a: Row, b: Row, cols: set<string>)
    ensures Widen(a, cols) == Widen(b, cols) <==> forall c :: c in cols ==> Get(a, c) == Get(b, c)
  {
    if forall c :: c in cols ==> Get(a, c) == Get(b, c) {
      assert Widen(a, cols).Keys == Widen(b, cols).Keys;
    }
  }

  function Table(rows: seq<Row>): (t: seq<Row>)
    ensures |t| == |rows|
  {
    var cols := Columns(rows);
    seq(|rows|, i requires 0 <= i < |rows| => Widen(rows[i], cols))
  }

  /** pandas' duplicate removal on the table of the rows: the table lines,
      each kept at its first occurrence. */
  method DropDuplicates(rows: seq<Row>) returns (out: seq<Row>)
    ensures out == Dedup(Table(rows))
  {
    var t := Table(rows);
    out := [];
    for i := 0 to |t|
      invariant out == Dedup(t[..i])
    {
      DedupStep(t, i, out);
      if t[i] !in out {
        out := out + [t[i]];
      }
    }
    assert t[..|t|] == t;
  }

  /** What a run leaves behind: the progress values, the emitted rows (whose
      number the final message reports) and the table written to the CSV
      file, if any. */
  datatype Outcome = Outcome(progress: seq<int>, persons: seq<Row>, csv: Option<seq<Row>>)

  /** The number of businesses a run processes. */
  function Cap(n: nat): (k: nat)
    ensures k <= n && k <= 3 && (n >= 3 ==> k == 3) && (n < 3 ==> k == n)
  {
    if n < 3 then n else 3
  }

  /** The rows of the given businesses, business after business. */
  function Harvest(urls: seq<string>, sv: Services): seq<Row>
  {
    Flatten(Passes(urls, sv))
  }

  /** The rows of each business, in order. */
  function Passes(urls: seq<string>, sv: Services): (ps: seq<seq<Row>>)
    ensures |ps| == |urls|
  {
    MapSeq(urls, (u: string) => RunDemo(u, sv))
  }

  /** Rows are emitted business after business, none merged or dropped. */
  lemma {:induction false} HarvestAppend(a: seq<string>, b: seq<string>, sv: Services)
    ensures Harvest(a + b, sv) == Harvest(a, sv) + Harvest(b, sv)
  {
    MapSeqAppend(a, b, (u: string) => RunDemo(u, sv));
    FlattenAppend(Passes(a, sv), Passes(b, sv));
  }

  /** A single business contributes exactly its `run_demo` rows. */
  lemma {:induction false} HarvestOne(url: string, sv: Services)
    ensures Harvest([url], sv) == RunDemo(url, sv)
  {
    var p := Passes([url], sv);
    assert p == [RunDemo(url, sv)];
    assert Flatten(p) == RunDemo(url, sv) + Flatten(p[1..]);
    assert p[1..] == [];
  }

  /** A row is gathered if and only if one of the businesses gives it. */
  lemma {:induction false} HarvestMember(urls: seq<string>, sv: Services, r: Row)
    ensures r in Harvest(urls, sv) <==> exists i :: 0 <= i < |urls| && r in RunDemo(urls[i], sv)
  {
    var ps := Passes(urls, sv);
    FlattenMember(ps, r);
    assert forall i :: 0 <= i < |urls| ==> ps[i] == RunDemo(urls[i], sv);
  }

  /** `ScrapingWorker.run`: discover, process the first three businesses in
      order, emit every row found and write the deduplicated table. */
  function Run(keywords: string, state: string, sv: Services): (o: Outcome)
    ensures |o.progress| >= 1 && o.progress[0] == 10
    ensures GetUrls(sv.results, keywords, state) in {None, Some([])} ==> o.persons == [] && o.csv.None?
    ensures GetUrls(sv.results, keywords, state).Some? ==>
      var urls := GetUrls(sv.results, keywords, state).value;
      o.persons == Harvest(urls[..Cap(|urls|)], sv)
    ensures o.csv.Some? <==> |o.persons| > 0
  {
    match GetUrls(sv.results, keywords, state)
    case None => Outcome([10], [], None)
    case Some(urls) =>
      if |urls| == 0 then Outcome([10, 20], [], None)
      else
        var total := Cap(|urls|);
        var persons := Harvest(urls[..total], sv);
        Outcome(ProgressTrace(total), persons, if |persons| > 0 then Some(Dedup(Table(persons))) else None)
  }

  /** The progress values of a run that processes `total` businesses. */
  function ProgressTrace(total: nat): seq<int>
    requires 0 < total
  {
    [10, 20] + seq(total, i requires 0 <= i < total => BusinessProgress(i, total)) + [100]
  }

  /** The three possible traces. */
  lemma {:induction false} ProgressTraceValues()
    ensures ProgressTrace(1) == [10, 20, 100, 100]
    ensures ProgressTrace(2) == [10, 20, 60, 100, 100]
    ensures ProgressTrace(3) == [10, 20, 46, 73, 100, 100]
  {
  }

  /** A trace never decreases, and it reaches 100 twice: after the last
      business and at the end. */
  lemma {:induction false} ProgressTraceSorted(total: nat)
    requires 1 <= total <= 3
    ensures var t := ProgressTrace(total);
      && |t| == total + 3 && t[0] == 10 && t[1] == 20
      && (forall i, j :: 0 <= i < j < |t| ==> t[i] <= t[j])
      && t[|t| - 2] == 100 && t[|t| - 1] == 100
  {
    var t := ProgressTrace(total);
    ProgressIncreases(total);
    assert forall i :: 0 <= i < total ==> t[i + 2] == BusinessProgress(i, total);
    forall i, j | 0 <= i < j < |t| ensures t[i] <= t[j] {
      if 2 <= i && j < |t| - 1 {
        assert t[i] == BusinessProgress(i - 2, total) && t[j] == BusinessProgress(j - 2, total);
      }
    }
  }

  /** The progress values never decrease, and a run that finds businesses
      ends at 100 twice: after its last business and at the end. */
  lemma {:induction false} RunProgress(keywords: string, state: string, sv: Services)
    ensures var o := Run(keywords, state, sv);
      var found := GetUrls(sv.results, keywords, state);
      && (found.None? ==> o.progress == [10])
      && (found == Some([]) ==> o.progress == [10, 20])
      && (forall i, j :: 0 <= i < j < |o.progress| ==> o.progress[i] <= o.progress[j])
      && (found.Some? && |found.value| > 0 ==>
            && |o.progress| == Cap(|found.value|) + 3
            && o.progress[1] == 20
            && o.progress[|o.progress| - 2] == 100 && o.progress[|o.progress| - 1] == 100)
  {
    var o := Run(keywords, state, sv);
    var found := GetUrls(sv.results, keywords, state);
    ProgressOfFound(found, o.progress);
  }

  /** The progress reports of a run, given what discovery found. */
  lemma {:induction false} ProgressOfFound(found: Option<seq<string>>, progress: seq<int>)
    requires found.None? ==> progress == [10]
    requires found == Some([]) ==> progress == [10, 20]
    requires found.Some? && |found.value| > 0 ==> progress == ProgressTrace(Cap(|found.value|))
    ensures forall i, j :: 0 <= i < j < |progress| ==> progress[i] <= progress[j]
    ensures found.Some? && |found.value| > 0 ==>
      && |progress| == Cap(|found.value|) + 3
      && progress[1] == 20
      && progress[|progress| - 2] == 100 && progress[|progress| - 1] == 100
  {
    if found.Some? && |found.value| > 0 {
      ProgressTraceSorted(Cap(|found.value|));
    }
  }

  /** The deduplicated table: each line once, every row present as a line,
      nothing but rows' lines, and every line over all columns. */
  lemma {:induction false} DedupTableSpec(rows: seq<Row>)
    ensures var lines := Dedup(Table(rows));
      && Distinct(lines)
      && |lines| <= |rows|
      && (forall i :: 0 <= i < |rows| ==> Widen(rows[i], Columns(rows)) in lines)
      && (forall r :: r in lines ==> r.Keys == Columns(rows))
      && (forall r :: r in lines ==> exists i :: 0 <= i < |rows| && r == Widen(rows[i], Columns(rows)))
  {
    var t := Table(rows);
    var lines := Dedup(t);
    assert forall i :: 0 <= i < |rows| ==> t[i] == Widen(rows[i], Columns(rows));
    forall r | r in lines
      ensures exists i :: 0 <= i < |rows| && r == Widen(rows[i], Columns(rows))
    {
      var k :| 0 <= k < |t| && t[k] == r;
    }
  }

  /** The CSV file, when written, is the deduplicated table of the rows. */
  lemma {:induction false} RunTable(keywords: string, state: string, sv: Services)
    ensures var o := Run(keywords, state, sv);
      o.csv.Some? ==>
        && Distinct(o.csv.value)
        && |o.csv.value| <= |o.persons|
        && (forall i :: 0 <= i < |o.persons| ==> Widen(o.persons[i], Columns(o.persons)) in o.csv.value)
        && (forall r :: r in o.csv.value ==> r.Keys == Columns(o.persons))
        && (forall r :: r in o.csv.value ==>
              exists i :: 0 <= i < |o.persons| && r == Widen(o.persons[i], Columns(o.persons)))
  {
    var o := Run(keywords, state, sv);
    if o.csv.Some? {
      assert o.csv.value == Dedup(Table(o.persons));
      DedupTableSpec(o.persons);
    }
  }

}
