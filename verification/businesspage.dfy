/** What the scraper reads from a BBB business profile page, over a small
    abstract document instead of an HTML parser: the owner contacts of the
    "Additional Contact Information" section, the "Business Started:" date,
    the overview address and business name, and the listing links of a
    search-results page. */
module BusinessPage {
  import opened Options
  import opened Text
  import opened Decimal
  import opened Seqs
  import opened Links

  /** A `dd` element, given by its text nodes in document order. */
  datatype Dd = Dd(pieces: seq<string>)

  /** `dd.text`: all text nodes, concatenated as they are. */
  function DdText(dd: Dd): (t: string)
  {
    Flatten(dd.pieces)
  }

  /** The stripped, non-empty text nodes of a `dd`. */
  function StrippedPieces(pieces: seq<string>): (r: seq<string>)
    ensures forall i :: 0 <= i < |r| ==> |r[i]| > 0 && !IsSpace(r[i][0]) && !IsSpace(r[i][|r[i]| - 1])
    ensures |r| <= |pieces|
  {
    if |pieces| == 0 then []
    else
      var p := Strip(pieces[0]);
      var rest := StrippedPieces(pieces[1..]);
      if |p| == 0 then rest else [p] + rest
  }

  /** A stripped piece is kept if and only if it is nonempty and is the
      stripped text of one of the text nodes. */
  lemma {:induction false} StrippedPiecesMember(pieces: seq<string>, x: string)
    ensures x in StrippedPieces(pieces) <==> |x| > 0 && exists i :: 0 <= i < |pieces| && x == Strip(pieces[i])
    decreases |pieces|
  {
    if |pieces| > 0 {
      var tail := pieces[1..];
      StrippedPiecesMember(tail, x);
      if exists i :: 0 <= i < |pieces| && x == Strip(pieces[i]) {
        var i :| 0 <= i < |pieces| && x == Strip(pieces[i]);
        if i > 0 {
          assert tail[i - 1] == pieces[i];
        }
      }
      if exists i :: 0 <= i < |tail| && x == Strip(tail[i]) {
        var i :| 0 <= i < |tail| && x == Strip(tail[i]);
        assert pieces[i + 1] == tail[i];
      }
    }
  }

  /** Text nodes are processed in document order: the pieces of consecutive
      runs of text nodes follow each other. */
  lemma {:induction false} StrippedPiecesAppend(a: seq<string>, b: seq<string>)
    ensures StrippedPieces(a + b) == StrippedPieces(a) + StrippedPieces(b)
    decreases |a|
  {
    if |a| == 0 {
      assert a + b == b;
    } else {
      assert (a + b)[1..] == a[1..] + b;
      StrippedPiecesAppend(a[1..], b);
    }
  }

  /** The text of a `dd` as the contact extraction reads it: every text node
      stripped, the empty ones dropped, the rest joined with one space. */
  function DdCleanText(dd: Dd): (t: string)
  {
    Join(StrippedPieces(dd.pieces), " ")
  }

  /** A `div.bpr-details-dl-data`: the text of its first `dt` (if any), its
      `dd` children, and the whole text under the div. */
  datatype DataDiv = DataDiv(dt: Option<string>, dds: seq<Dd>, text: string)

  /** A `div.bpr-details-section.stack`: the text of its section heading (if
      any) and the data divs of its `dl.bpr-details-dl.stack` (if any). */
  datatype Section = Section(heading: Option<string>, dl: Option<seq<DataDiv>>)

  /** The parts of a profile page the scraper looks at. `dataDivs` are all
      the `div.bpr-details-dl-data` of the page, in document order. */
  datatype Page = Page(
    sections: seq<Section>,
    dataDivs: seq<DataDiv>,
    address: Option<string>,
    businessName: Option<string>,
    text: string)

  // ---------------------------------------------------------------------------
  // Owner contacts

  const ContactsHeading := "Additional Contact Information"
  const ContactLabels := ["Principal Contacts", "Customer Contacts"]

  predicate IsContactsSection(s: Section) {
    s.heading.Some? && Contains(s.heading.value, ContactsHeading)
  }

  predicate IsContactDiv(d: DataDiv) {
    d.dt.Some? && Strip(d.dt.value) in ContactLabels
  }

  /** The cleaned texts of every `dd` of a list of dds. */
  function DdTexts(dds: seq<Dd>): (r: seq<string>)
    ensures |r| == |dds|
    ensures forall i :: 0 <= i < |dds| ==> r[i] == DdCleanText(dds[i])
  {
    seq(|dds|, i requires 0 <= i < |dds| => DdCleanText(dds[i]))
  }

  /** Contact texts of the contact divs of one `dl`, in document order. */
  function DivContacts(divs: seq<DataDiv>): (r: seq<string>)
  {
    if |divs| == 0 then []
    else (if IsContactDiv(divs[0]) then DdTexts(divs[0].dds) else []) + DivContacts(divs[1..])
  }

  /** Contact texts of every qualifying section, in document order. */
  function ContactTexts(sections: seq<Section>): (r: seq<string>)
  {
    if |sections| == 0 then []
    else
      var s := sections[0];
      (if IsContactsSection(s) && s.dl.Some? then DivContacts(s.dl.value) else [])
        + ContactTexts(sections[1..])
  }

  /** The key `owner{i}`. */
  function OwnerKey(i: nat): string {
    IndexKey("owner", i)
  }

  /** The contact dictionary: the texts numbered `owner0`, `owner1`, ... in order. */
  function OwnerMap(texts: seq<string>): map<string, string> {
    Enumerate("owner", texts)
  }

  /** `parse_owner_title_from_html`: the contact dictionary, or `None`
      when no contact text was found. */
  function ParseOwnerTitle(sections: seq<Section>): (r: Option<map<string, string>>)
    ensures r.None? <==> |ContactTexts(sections)| == 0
    ensures r.Some? ==> r.value == OwnerMap(ContactTexts(sections))
  {
    var texts := ContactTexts(sections);
    if |texts| == 0 then None else Some(OwnerMap(texts))
  }

  /** The dictionary has exactly one key per contact text. */
  lemma {:induction false} OwnerMapSize(texts: seq<string>)
    ensures |OwnerMap(texts)| == |texts|
  {
    EnumerateSize("owner", texts);
  }

  /** Reading the keys `owner0 .. owner{n-1}` of the dictionary, with `""`
      for a missing key, in the way the owner lookups do. */
  function ReadOwners(d: map<string, string>): (raws: seq<string>)
    ensures |raws| == |d|
  {
    seq(|d|, i requires 0 <= i < |d| => if OwnerKey(i) in d then d[OwnerKey(i)] else "")
  }

  /** The lookups read back exactly the collected contact texts, in order. */
  lemma {:induction false} ReadOwnersRoundTrip(texts: seq<string>)
    ensures ReadOwners(OwnerMap(texts)) == texts
  {
    OwnerMapSize(texts);
  }

  /** Sections are scanned in document order: contacts of consecutive parts
      of the page follow each other. */
  lemma {:induction false} ContactTextsAppend(a: seq<Section>, b: seq<Section>)
    ensures ContactTexts(a + b) == ContactTexts(a) + ContactTexts(b)
    decreases |a|
  {
    if |a| == 0 {
      assert a + b == b;
    } else {
      assert (a + b)[1..] == a[1..] + b;
      ContactTextsAppend(a[1..], b);
    }
  }

  /** A section counts only when its heading contains the exact phrase and
      a contact div's label, once stripped, is one of the two labels: a
      one-section page gives the cleaned texts of that div's dds. */
  lemma {:induction false} OneContactDiv(heading: string, dt: string, dds: seq<Dd>)
    requires Contains(heading, ContactsHeading)
    requires Strip(dt) in ContactLabels
    ensures ContactTexts([Section(Some(heading), Some([DataDiv(Some(dt), dds, "")]))])
         == DdTexts(dds)
  {
    var d := DataDiv(Some(dt), dds, "");
    assert [d][1..] == [];
    assert DivContacts([d]) == DdTexts(dds) + [];
    var s := Section(Some(heading), Some([d]));
    assert [s][1..] == [];
  }

  /** A section whose heading is missing or lacks the phrase, or that has no
      `dl`, contributes nothing. */
  lemma {:induction false} OtherSectionIgnored(s: Section, rest: seq<Section>)
    requires !IsContactsSection(s) || s.dl.None?
    ensures ContactTexts([s] + rest) == ContactTexts(rest)
  {
    assert ([s] + rest)[1..] == rest;
  }

  /** A div whose label is anything else contributes nothing. */
  lemma {:induction false} OtherDivIgnored(d: DataDiv, rest: seq<DataDiv>)
    requires !IsContactDiv(d)
    ensures DivContacts([d] + rest) == DivContacts(rest)
  {
    assert ([d] + rest)[1..] == rest;
  }

  /** The cleaned text of a `dd` has no leading or trailing whitespace. */
  lemma {:induction false} DdCleanTextStripped(dd: Dd)
    ensures var t := DdCleanText(dd); |t| == 0 || (!IsSpace(t[0]) && !IsSpace(t[|t| - 1]))
  {
    var ps := StrippedPieces(dd.pieces);
    JoinEnds(ps, " ");
  }

  /** A join of non-empty pieces starts with the first piece and ends with the last. */
  lemma {:induction false} JoinEnds(ts: seq<string>, sep: string)
    requires forall i :: 0 <= i < |ts| ==> |ts[i]| > 0
    ensures var j := Join(ts, sep);
      |ts| > 0 ==> |j| > 0 && j[0] == ts[0][0] && j[|j| - 1] == ts[|ts| - 1][|ts[|ts| - 1]| - 1]
  {
    if |ts| > 1 {
      JoinEnds(ts[1..], sep);
    }
  }

  // ---------------------------------------------------------------------------
  // Business start date

  const StartedLabel := "Business Started:"

  predicate IsStartDiv(d: DataDiv) {
    Contains(d.text, StartedLabel)
  }

  /** `get_start_year`: every data div whose text mentions "Business Started:"
      sets the date to the text of its first `dd`, so the last one wins.
      Outer `None` is the `AttributeError` raised when such a div has no `dd`;
      `Some(None)` means no div mentions it. */
  function StartDate(divs: seq<DataDiv>): (r: Option<Option<string>>)
    decreases |divs|
  {
    if |divs| == 0 then Some(None)
    else
      var n := |divs| - 1;
      var d := divs[n];
      var prev := StartDate(divs[..n]);
      if prev.None? then None
      else if !IsStartDiv(d) then prev
      else if |d.dds| == 0 then None
      else Some(Some(DdText(d.dds[0])))
  }

  /** The date raises exactly when some "Business Started:" div has no `dd`;
      it is missing exactly when no div mentions it; otherwise it is the
      first `dd` of the last div that mentions it. */
  lemma {:induction false} StartDateSpec(divs: seq<DataDiv>)
    ensures StartDate(divs).None? <==>
      exists i :: 0 <= i < |divs| && IsStartDiv(divs[i]) && |divs[i].dds| == 0
    ensures StartDate(divs) == Some(None) <==> forall i :: 0 <= i < |divs| ==> !IsStartDiv(divs[i])
    ensures StartDate(divs).Some? && StartDate(divs).value.Some? ==>
      exists i :: 0 <= i < |divs| && IsStartDiv(divs[i]) && |divs[i].dds| > 0
        && StartDate(divs).value.value == DdText(divs[i].dds[0])
        && forall j :: i < j < |divs| ==> !IsStartDiv(divs[j])
    decreases |divs|
  {
    if |divs| > 0 {
      var n := |divs| - 1;
      StartDateSpec(divs[..n]);
      assert forall i :: 0 <= i < n ==> divs[..n][i] == divs[i];
    }
  }

  /** The last "Business Started:" div decides the date, whatever came before,
      as long as nothing before it raised. */
  lemma {:induction false} StartDateLastWins(a: seq<DataDiv>, d: DataDiv, b: seq<DataDiv>)
    requires StartDate(a).Some?
    requires IsStartDiv(d) && |d.dds| > 0
    requires forall j :: 0 <= j < |b| ==> !IsStartDiv(b[j])
    ensures StartDate(a + [d] + b) == Some(Some(DdText(d.dds[0])))
    decreases |b|
  {
    var s := a + [d] + b;
    if |b| == 0 {
      assert s[..|s| - 1] == a;
    } else {
      var b' := b[..|b| - 1];
      assert s[..|s| - 1] == a + [d] + b';
      assert s[|s| - 1] == b[|b| - 1];
      StartDateLastWins(a, d, b');
    }
  }

  // ---------------------------------------------------------------------------
  // Listing links

  const BbbOrigin := "https://www.bbb.org"

  /** `get_business_urls`: the `href` of every listing link, prefixed with the
      site origin, in page order. `None` is the `TypeError` raised when a link
      has no `href`. */
  function BusinessUrls(hrefs: seq<Option<string>>): (r: Option<seq<string>>)
  {
    PrefixLinks(BbbOrigin, hrefs)
  }

  // ---------------------------------------------------------------------------
  // Whole profile

  /** What `crawl_bbb_business` returns besides the page itself. */
  datatype Crawl = Crawl(
    owners: Option<map<string, string>>,
    address: string,
    businessName: string,
    startDate: Option<string>)

  /** `crawl_bbb_business` on a fetched page: `None` when one of the
      extractors raises (no address div, no business-name span, or a
      "Business Started:" div without a `dd`). */
  function CrawlPage(p: Page): (r: Option<Crawl>)
    ensures r.Some? <==> p.address.Some? && p.businessName.Some? && StartDate(p.dataDivs).Some?
    ensures r.Some? ==> r.value.owners == ParseOwnerTitle(p.sections)
    ensures r.Some? ==> r.value.address == p.address.value && r.value.businessName == p.businessName.value
    ensures r.Some? ==> Some(r.value.startDate) == StartDate(p.dataDivs)
  {
    var owners := ParseOwnerTitle(p.sections);
    match (p.address, p.businessName, StartDate(p.dataDivs))
    case (Some(a), Some(b), Some(sd)) => Some(Crawl(owners, a, b, sd))
    case _ => None
  }
}
