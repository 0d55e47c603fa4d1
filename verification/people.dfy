/** The people-search side: the profile links found for an owner
    (`get_people_urls`), the contact emails of a profile (`extract_emails`
    and the removal of the site's support address) and the contact row built
    from a profile page (`get_person_details`). Requests are parameters. */
module People {
  import opened Options
  import opened Text
  import opened Decimal
  import opened Seqs
  import opened Links
  import opened Names

  const PeopleOrigin := "https://www.truepeoplesearch.com"
  const SupportEmail := "support@truepeoplesearch.com"

  /** A people-search request, given the name slug and the zip code: the
      `href` of each "View All Details" link of the results page, or `None`
      when the request raises. */
  type Search = (string, string) -> Option<seq<Option<string>>>

  /** `get_people_urls`: the distinct profile links for a name and zip code.
      `None` when the request raises or a link has no `href`. */
  function PeopleUrls(search: Search, fullname: string, zip: string): (r: Option<seq<string>>)
    ensures r.Some? ==> Distinct(r.value)
  {
    match search(NameSlug(fullname), zip)
    case None => None
    case Some(hrefs) =>
      match PrefixLinks(PeopleOrigin, hrefs)
      case None => None
      // `list(set(...))`: Python leaves the order unspecified; first occurrences are kept here.
      case Some(urls) => Some(Dedup(urls))
  }

  /** The profile links are the site's links of the results page, each once:
      a link is returned exactly when some result carries it. */
  lemma {:induction false} PeopleUrlsSpec(search: Search, fullname: string, zip: string)
    requires PeopleUrls(search, fullname, zip).Some?
    ensures var hrefs := search(NameSlug(fullname), zip).value;
      var urls := PeopleUrls(search, fullname, zip).value;
      && (forall i :: 0 <= i < |urls| ==>
            |urls[i]| >= |PeopleOrigin| && urls[i][..|PeopleOrigin|] == PeopleOrigin
            && exists j :: 0 <= j < |hrefs| && hrefs[j] == Some(urls[i][|PeopleOrigin|..]))
      && (forall j :: 0 <= j < |hrefs| ==> hrefs[j].Some? && PeopleOrigin + hrefs[j].value in urls)
  {
    var hrefs := search(NameSlug(fullname), zip).value;
    DistinctLinksSpec(PeopleOrigin, hrefs, PrefixLinks(PeopleOrigin, hrefs).value, PeopleUrls(search, fullname, zip).value);
  }

  /** The distinct links of some anchors are the origin followed by an
      `href`, and every `href` gives one of them. */
  lemma {:induction false} DistinctLinksSpec(origin: string, hrefs: seq<Option<string>>, all: seq<string>, urls: seq<string>)
    requires PrefixLinks(origin, hrefs) == Some(all) && urls == Dedup(all)
    ensures forall i :: 0 <= i < |urls| ==>
      |urls[i]| >= |origin| && urls[i][..|origin|] == origin
      && exists j :: 0 <= j < |hrefs| && hrefs[j] == Some(urls[i][|origin|..])
    ensures forall j :: 0 <= j < |hrefs| ==> hrefs[j].Some? && origin + hrefs[j].value in urls
  {
    PrefixLinksSpec(origin, hrefs);
    forall i | 0 <= i < |urls|
      ensures |urls[i]| >= |origin| && urls[i][..|origin|] == origin
      ensures exists j :: 0 <= j < |hrefs| && hrefs[j] == Some(urls[i][|origin|..])
    {
      LinkFromHref(origin, hrefs, all, urls[i]);
    }
    forall j | 0 <= j < |hrefs| ensures hrefs[j].Some? && origin + hrefs[j].value in urls {
      HrefGivesLink(origin, hrefs, all, j);
    }
  }

  /** A link built from the anchors reads back as the origin and an `href`. */
  lemma {:induction false} LinkFromHref(origin: string, hrefs: seq<Option<string>>, all: seq<string>, u: string)
    requires PrefixLinks(origin, hrefs) == Some(all) && u in all
    ensures |u| >= |origin| && u[..|origin|] == origin
    ensures exists j :: 0 <= j < |hrefs| && hrefs[j] == Some(u[|origin|..])
  {
    PrefixLinksSpec(origin, hrefs);
    var j :| 0 <= j < |all| && all[j] == u;
    assert hrefs[j] == Some(u[|origin|..]);
  }

  /** Every anchor's link is built. */
  lemma {:induction false} HrefGivesLink(origin: string, hrefs: seq<Option<string>>, all: seq<string>, j: nat)
    requires PrefixLinks(origin, hrefs) == Some(all) && j < |hrefs|
    ensures hrefs[j].Some? && origin + hrefs[j].value in all
  {
    PrefixLinksSpec(origin, hrefs);
    assert all[j][..|origin|] == origin;
    assert all[j] == origin + hrefs[j].value;
  }

  // ---------------------------------------------------------------------------
  // Emails

  /** `extract_emails` followed by `emails.remove(support)` when present:
      the distinct matches of the email pattern, without the support address.
      `matches` are the pattern's matches in the page text, in order. */
  function ContactEmails(matches: seq<string>): (es: seq<string>)
    ensures Distinct(es)
    ensures SupportEmail !in es
    ensures forall i :: 0 <= i < |es| ==> es[i] in matches
    ensures forall i :: 0 <= i < |matches| && matches[i] != SupportEmail ==> matches[i] in es
  {
    var unique := Dedup(matches);
    RemoveFromDistinct(unique, SupportEmail);
    RemoveFirst(unique, SupportEmail)
  }

  // ---------------------------------------------------------------------------
  // Contact row

  /** A cell of a contact row: a string, or Python's `None`. */
  datatype Cell = Str(s: string) | Null

  /** A contact row: column name to cell. */
  type Row = map<string, Cell>

  function OptCell(o: Option<string>): Cell {
    match o
    case Some(s) => Str(s)
    case None => Null
  }

  function Cells(vs: seq<string>): (cs: seq<Cell>)
    ensures |cs| == |vs| && forall i :: 0 <= i < |vs| ==> cs[i] == Str(vs[i])
  {
    seq(|vs|, i requires 0 <= i < |vs| => Str(vs[i]))
  }

  /** The `span` texts of the address link, each `None` when missing. */
  datatype AddressLink = AddressLink(street: Option<string>, locality: Option<string>, region: Option<string>)

  /** The parts of a person profile page the row is built from:
      the attributes of `div#personDetails`, the text of `h1.oh1`, the
      address and phone links (their `telephone` span texts), and the matches
      of the email pattern in the page text. */
  datatype PersonPage = PersonPage(
    details: Option<map<string, string>>,
    heading: Option<string>,
    addressLink: Option<AddressLink>,
    phoneLink: Option<seq<string>>,
    emailMatches: seq<string>)

  /** The profile has every element the row needs; otherwise an `AttributeError`,
      `TypeError` or `KeyError` is raised and the row is `{}`. */
  predicate Complete(p: PersonPage) {
    && p.details.Some? && "data-age" in p.details.value
    && p.heading.Some?
    && p.addressLink.Some?
    && p.addressLink.value.street.Some?
    && p.addressLink.value.locality.Some?
    && p.addressLink.value.region.Some?
    && p.phoneLink.Some?
  }

  /** The eight named fields of a complete profile. */
  function FixedFields(p: PersonPage, businessName: string, startDate: Option<string>, position: Option<string>): Row
    requires Complete(p)
  {
    var a := p.addressLink.value;
    map[
      "Name" := Str(p.heading.value),
      "Age" := Str(p.details.value["data-age"]),
      "Position" := OptCell(position),
      "Address" := Str(Strip(a.street.value)),
      "City" := Str(Strip(a.locality.value)),
      "State" := Str(Strip(a.region.value)),
      "Business Name" := Str(businessName),
      "Business Start Date" := OptCell(startDate)]
  }

  function Phones(p: PersonPage): seq<string>
    requires p.phoneLink.Some?
  {
    var spans := p.phoneLink.value;
    seq(|spans|, i requires 0 <= i < |spans| => Strip(spans[i]))
  }

  /** `get_person_details` on a fetched profile (`None` when the request
      raises): the eight named fields, then `Phone 0 ..` and `Email 0 ..`,
      or the empty row when anything is missing. */
  function PersonDetails(page: Option<PersonPage>, businessName: string, startDate: Option<string>,
                         position: Option<string>): (row: Row)
    ensures |row| == 0 <==> page.None? || !Complete(page.value)
  {
    if page.None? || !Complete(page.value) then map[]
    else
      var p := page.value;
      FixedFields(p, businessName, startDate, position)
        + Enumerate("Phone ", Cells(Phones(p)))
        + Enumerate("Email ", Cells(ContactEmails(p.emailMatches)))
  }

  /** A column name that cannot be a numbered phone or email key: it does
      not start with `E`, nor with `Ph`. */
  predicate Unnumbered(c: string) {
    |c| >= 2 && c[0] != 'E' && (c[0] != 'P' || c[1] != 'h')
  }

  lemma {:induction false} UnnumberedNotIndexKey(c: string, i: nat)
    requires Unnumbered(c)
    ensures IndexKey("Phone ", i) != c && IndexKey("Email ", i) != c
  {
    var k := IndexKey("Phone ", i);
    assert k[..6] == "Phone ";
    assert k[0] == 'P' && k[1] == 'h';
    var e := IndexKey("Email ", i);
    assert e[..6] == "Email ";
    assert e[0] == 'E';
  }

  /** Phone keys and email keys never coincide. */
  lemma {:induction false} PhoneEmailKeysDiffer(i: nat, j: nat)
    ensures IndexKey("Phone ", i) != IndexKey("Email ", j)
  {
    var k := IndexKey("Phone ", i);
    var e := IndexKey("Email ", j);
    assert k[..6] == "Phone " && e[..6] == "Email ";
    assert k[0] == 'P' && e[0] == 'E';
  }

  /** The named fields are keyed by exactly the eight named columns. */
  lemma {:induction false} FixedFieldsKeys(p: PersonPage, businessName: string, startDate: Option<string>, position: Option<string>)
    requires Complete(p)
    ensures FixedFields(p, businessName, startDate, position).Keys
         == {"Name", "Age", "Position", "Address", "City", "State", "Business Name", "Business Start Date"}
  {
  }

  /** The named columns are all unnumbered. */
  lemma {:induction false} FixedColumnsUnnumbered(p: PersonPage, businessName: string, startDate: Option<string>, position: Option<string>)
    requires Complete(p)
    ensures forall c :: c in FixedFields(p, businessName, startDate, position) ==> Unnumbered(c)
  {
    FixedFieldsKeys(p, businessName, startDate, position);
    assert Unnumbered("Name") && Unnumbered("Age") && Unnumbered("Position") && Unnumbered("Address");
    assert Unnumbered("City") && Unnumbered("State") && Unnumbered("Business Name");
    assert Unnumbered("Business Start Date");
  }

  /** No unnumbered name is a phone or email key. */
  lemma {:induction false} UnnumberedNotNumbered(c: string, np: nat, ne: nat)
    requires Unnumbered(c)
    ensures c !in IndexKeys("Phone ", np) && c !in IndexKeys("Email ", ne)
  {
    forall i: nat ensures IndexKey("Phone ", i) != c && IndexKey("Email ", i) != c {
      UnnumberedNotIndexKey(c, i);
    }
  }

  /** No email key is a phone key. */
  lemma {:induction false} NumberedKeysDisjoint(np: nat, ne: nat)
    ensures forall k :: k in IndexKeys("Email ", ne) ==> k !in IndexKeys("Phone ", np)
  {
    forall i: nat, j: nat ensures IndexKey("Phone ", i) != IndexKey("Email ", j) {
      PhoneEmailKeysDiffer(i, j);
    }
  }

  /** The named fields of a complete profile survive the phone and email
      updates: none of them is overwritten. */
  lemma {:induction false} FixedFieldsKept(p: PersonPage, businessName: string, startDate: Option<string>, position: Option<string>)
    requires Complete(p)
    ensures var row := PersonDetails(Some(p), businessName, startDate, position);
      var fixed := FixedFields(p, businessName, startDate, position);
      forall c :: c in fixed ==> c in row && row[c] == fixed[c]
  {
    var fixed := FixedFields(p, businessName, startDate, position);
    PersonDetailsComplete(p, businessName, startDate, position);
    FixedColumnsUnnumbered(p, businessName, startDate, position);
    forall c | c in fixed
      ensures c !in IndexKeys("Phone ", |Phones(p)|) && c !in IndexKeys("Email ", |ContactEmails(p.emailMatches)|)
    {
      UnnumberedNotNumbered(c, |Phones(p)|, |ContactEmails(p.emailMatches)|);
    }
  }

  /** The row of a complete profile: the named fields, then the phones,
      then the emails. */
  lemma {:induction false} PersonDetailsComplete(p: PersonPage, businessName: string, startDate: Option<string>, position: Option<string>)
    requires Complete(p)
    ensures PersonDetails(Some(p), businessName, startDate, position)
         == FixedFields(p, businessName, startDate, position)
            + Enumerate("Phone ", Cells(Phones(p)))
            + Enumerate("Email ", Cells(ContactEmails(p.emailMatches)))
  {
  }

  /** A phone key is found among the phones whatever precedes them, since no
      email key can shadow it. */
  lemma {:induction false} PhoneLookup(fixed: Row, ps: seq<Cell>, es: seq<Cell>, i: nat)
    requires i < |ps|
    ensures (fixed + Enumerate("Phone ", ps) + Enumerate("Email ", es))[IndexKey("Phone ", i)] == ps[i]
  {
    var k := IndexKey("Phone ", i);
    var phones := Enumerate("Phone ", ps);
    var emails := Enumerate("Email ", es);
    assert k in phones.Keys;
    NumberedKeysDisjoint(|ps|, |es|);
    UnionLookup(fixed, phones, emails, k);
  }

  /** `Phone i` holds the `i`-th phone, in order. */
  lemma {:induction false} PhoneFieldsRead(p: PersonPage, businessName: string, startDate: Option<string>, position: Option<string>)
    requires Complete(p)
    ensures var row := PersonDetails(Some(p), businessName, startDate, position);
      forall i :: 0 <= i < |Phones(p)| ==> row[IndexKey("Phone ", i)] == Str(Phones(p)[i])
  {
    var row := PersonDetails(Some(p), businessName, startDate, position);
    var fixed := FixedFields(p, businessName, startDate, position);
    var ps := Cells(Phones(p));
    var es := Cells(ContactEmails(p.emailMatches));
    PersonDetailsComplete(p, businessName, startDate, position);
    forall i | 0 <= i < |ps| ensures row[IndexKey("Phone ", i)] == ps[i] {
      PhoneLookup(fixed, ps, es, i);
    }
  }

  /** `Email i` holds the `i`-th contact email, in order. */
  lemma {:induction false} EmailFieldsRead(p: PersonPage, businessName: string, startDate: Option<string>, position: Option<string>)
    requires Complete(p)
    ensures var row := PersonDetails(Some(p), businessName, startDate, position);
      forall i :: 0 <= i < |ContactEmails(p.emailMatches)| ==>
        row[IndexKey("Email ", i)] == Str(ContactEmails(p.emailMatches)[i])
  {
    var row := PersonDetails(Some(p), businessName, startDate, position);
    var es := ContactEmails(p.emailMatches);
    var emails := Enumerate("Email ", Cells(es));
    PersonDetailsComplete(p, businessName, startDate, position);
    assert forall i :: 0 <= i < |es| ==> IndexKey("Email ", i) in emails.Keys;
  }

  lemma {:induction false} UnionLookup<K, V>(f: map<K, V>, a: map<K, V>, b: map<K, V>, k: K)
    requires k in a && k !in b
    ensures (f + a + b)[k] == a[k]
  {
  }

  /** A complete row has the eight named columns, one column per phone and
      one per contact email, and no other. */
  lemma {:induction false} RowSize(p: PersonPage, businessName: string, startDate: Option<string>, position: Option<string>)
    requires Complete(p)
    ensures |PersonDetails(Some(p), businessName, startDate, position)|
         == 8 + |Phones(p)| + |ContactEmails(p.emailMatches)|
  {
    var fixed := FixedFields(p, businessName, startDate, position);
    var np := |Phones(p)|;
    var ne := |ContactEmails(p.emailMatches)|;
    var pk := IndexKeys("Phone ", np);
    var ek := IndexKeys("Email ", ne);
    IndexKeysSize("Phone ", np);
    IndexKeysSize("Email ", ne);
    FixedFieldsSize(p, businessName, startDate, position);
    FixedColumnsUnnumbered(p, businessName, startDate, position);
    NumberedKeysDisjoint(np, ne);
    forall c | c in fixed.Keys ensures c !in pk && c !in ek {
      UnnumberedNotNumbered(c, np, ne);
    }
    var row := PersonDetails(Some(p), businessName, startDate, position);
    PersonDetailsComplete(p, businessName, startDate, position);
    assert row.Keys == fixed.Keys + pk + ek;
    DisjointUnionSize(fixed.Keys, pk);
    DisjointUnionSize(fixed.Keys + pk, ek);
  }

  lemma {:induction false} FixedFieldsSize(p: PersonPage, businessName: string, startDate: Option<string>, position: Option<string>)
    requires Complete(p)
    ensures |FixedFields(p, businessName, startDate, position)| == 8
  {
    FixedFieldsKeys(p, businessName, startDate, position);
    var short := {"Name", "Age", "Position", "Address"};
    assert |short| == 4;
    assert "Name" != "City" by { assert "Name"[0] != "City"[0]; }
    var long := short + {"City", "State", "Business Name", "Business Start Date"};
    assert |{"City", "State", "Business Name", "Business Start Date"}| == 4;
    DisjointUnionSize(short, {"City", "State", "Business Name", "Business Start Date"});
    assert long == {"Name", "Age", "Position", "Address", "City", "State", "Business Name", "Business Start Date"};
  }

  lemma {:induction false} DisjointUnionSize<T>(a: set<T>, b: set<T>)
    requires forall x :: x in b ==> x !in a
    ensures |a + b| == |a| + |b|
  {
    assert a * b == {};
  }
}
