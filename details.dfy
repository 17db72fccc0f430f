/**
 * What `scrape_member_details` does to one member record once the profile page is
 * fetched and parsed: the contact email, the telephone number and the CV link, each
 * chosen by a first-success-wins rule, filled in one after the other.
 */
module Details {
  import opened Wrappers
  import opened Seqs
  import opened Text
  import opened Config
  import opened Records
  import opened Listing

  /** An anchor of a profile page: its href attribute and its `.string` (`None` unless its only child is text). */
  datatype DetailAnchor = DetailAnchor(href: Option<string>, str: Option<string>)

  /**
   * A parsed profile page: its visible text, what `re.findall` returns on that text for
   * `EMAIL_PATTERN` and for each phone pattern (the international matches split at their
   * captured group), and its anchors in document order.
   */
  datatype DetailPage = DetailPage(
    text: string,
    emails: seq<string>,
    internationalPhones: seq<InternationalMatch>,
    localPhones: seq<string>,
    anchors: seq<DetailAnchor>)

  /** The `findall` results are matches of their patterns found in the page text. */
  predicate WellFormed(page: DetailPage) {
    (forall e :: e in page.emails ==> IsEmailMatch(e) && Contains(page.text, e)) &&
    (forall m :: m in page.internationalPhones ==>
       IsInternationalMatch(m) && Contains(page.text, m.prefix + m.rest)) &&
    (forall p :: p in page.localPhones ==> IsLocalMatch(p) && Contains(page.text, p))
  }

  /**
   * How the `try` block ends once the page is parsed: normally, or with an exception
   * escaping after the email step (its report at line 169) or after the phone step (line 176).
   */
  datatype Outcome = Completed | RaisedAfterEmail | RaisedAfterPhone

  /** The profile request: failed (network, HTTP status, parser), or a parsed page. */
  datatype DetailResponse = Unreachable | Loaded(page: DetailPage, outcome: Outcome)

  // ---- email ----

  /** The domain filter of line 166: a substring test, not a test of the domain itself. */
  predicate IsInstitutionalEmail(e: string) {
    Contains(e, "@cdep.ro") || Contains(e, "@senat.ro") || Contains(e, "@parlament.ro")
  }

  /** `valid_emails`. */
  function InstitutionalEmails(emails: seq<string>): seq<string> {
    Filter(emails, IsInstitutionalEmail)
  }

  /** `valid_emails[0]` when there is one. */
  function EmailChoice(emails: seq<string>): Option<string> {
    var valid := InstitutionalEmails(emails);
    if valid == [] then None else Some(valid[0])
  }

  /**
   * The chosen email is the first extracted address that passes the domain filter
   * (`j` is its position); there is none exactly when no address passes.
   */
  lemma EmailChoiceFirst(emails: seq<string>) returns (j: nat)
    ensures EmailChoice(emails).Some? ==>
              j < |emails| && EmailChoice(emails) == Some(emails[j]) &&
              IsInstitutionalEmail(emails[j]) &&
              forall i :: 0 <= i < j ==> !IsInstitutionalEmail(emails[i])
    ensures EmailChoice(emails).None? <==> forall i :: 0 <= i < |emails| ==> !IsInstitutionalEmail(emails[i])
  {
    j := FilterHead(emails, IsInstitutionalEmail);
  }

  /** On a well-formed page the chosen email is a match of `EMAIL_PATTERN` present in the page text. */
  lemma EmailChoiceIsMatch(page: DetailPage)
    requires WellFormed(page) && EmailChoice(page.emails).Some?
    ensures var e := EmailChoice(page.emails).value;
      IsEmailMatch(e) && Contains(page.text, e) && IsInstitutionalEmail(e)
  {
    var j := EmailChoiceFirst(page.emails);
    assert page.emails[j] in page.emails;
  }

  // ---- phone ----

  /**
   * `re.findall(pattern, page_text)`. The first pattern has one group, so its results are
   * the captured prefixes (`+40` or `0040`), not the whole numbers.
   */
  function Findall(page: DetailPage, p: PhonePattern): (found: seq<string>)
    ensures p == International ==> |found| == |page.internationalPhones|
  {
    match p
    case International =>
      seq(|page.internationalPhones|, i requires 0 <= i < |page.internationalPhones| =>
            page.internationalPhones[i].prefix)
    case Local => page.localPhones
  }

  /** The first result of the first pattern in `patterns` that has any. */
  function FirstFindall(page: DetailPage, patterns: seq<PhonePattern>): Option<string> {
    if patterns == [] then None
    else
      var found := Findall(page, patterns[0]);
      if found != [] then Some(found[0]) else FirstFindall(page, patterns[1..])
  }

  function PhoneChoice(page: DetailPage): Option<string> {
    FirstFindall(page, PHONE_PATTERNS)
  }

  /**
   * The international pattern wins whenever it matches, and then the stored value is its
   * captured prefix; the local pattern is consulted only when the international one has
   * no match; with neither, nothing is chosen.
   */
  lemma PhonePrecedence(page: DetailPage)
    ensures PhoneChoice(page) ==
      if page.internationalPhones != [] then Some(page.internationalPhones[0].prefix)
      else if page.localPhones != [] then Some(page.localPhones[0])
      else None
  {
    assert PHONE_PATTERNS[1..] == [Local];
    assert PHONE_PATTERNS[1..][1..] == [];
    var intl := Findall(page, International);
    if page.internationalPhones != [] {
      assert intl[0] == page.internationalPhones[0].prefix;
    } else {
      assert intl == [];
      assert PhoneChoice(page) == FirstFindall(page, [Local]);
      assert [Local][1..] == [];
    }
  }

  /**
   * On a well-formed page a chosen phone is `'+40'` or `'0040'` when the international
   * pattern matched, and otherwise a full match of the local pattern.
   */
  lemma PhoneChoiceValue(page: DetailPage)
    requires WellFormed(page) && PhoneChoice(page).Some?
    ensures var p := PhoneChoice(page).value;
      if page.internationalPhones != [] then p == "+40" || p == "0040"
      else IsLocalMatch(p)
  {
    PhonePrecedence(page);
    if page.internationalPhones != [] {
      assert page.internationalPhones[0] in page.internationalPhones;
    } else {
      assert page.localPhones[0] in page.localPhones;
    }
  }

  // ---- CV link ----

  predicate EndsWithDocumentExtension(s: string) {
    EndsWith(s, ".pdf") || EndsWith(s, ".doc") || EndsWith(s, ".docx")
  }

  /**
   * `re.compile(r'\.(pdf|doc|docx)$', re.I)` searched in an href: the extension, in any
   * case, at the very end or just before a final newline (where `$` also matches).
   */
  predicate HasDocumentExtension(href: string) {
    EndsWithDocumentExtension(FoldAll(href)) ||
    (|href| > 0 && href[|href| - 1] == '\n' && EndsWithDocumentExtension(FoldAll(href[..|href| - 1])))
  }

  predicate IsDocumentLink(a: DetailAnchor) {
    a.href.Some? && HasDocumentExtension(a.href.value)
  }

  /** `string=re.compile(r'CV|curriculum', re.I)`: the anchor's `.string` contains either word, in any case. */
  predicate IsCvLabelLink(a: DetailAnchor) {
    a.str.Some? && (Contains(FoldAll(a.str.value), "cv") || Contains(FoldAll(a.str.value), "curriculum"))
  }

  /** `cv_links`: the document links, or, when there are none, the links labelled as a CV. */
  function CvCandidates(anchors: seq<DetailAnchor>): seq<DetailAnchor> {
    var documents := Filter(anchors, IsDocumentLink);
    if documents != [] then documents else Filter(anchors, IsCvLabelLink)
  }

  /** A relative href is prefixed with the cdep base when the profile URL mentions `cdep.ro`, else with the senat base. */
  function ResolveCv(href: string, profileUrl: string): string {
    if StartsWith(href, "http") then href
    else (if Contains(profileUrl, "cdep.ro") then DEPUTY_PROFILE_BASE else SENATOR_PROFILE_BASE) + href
  }

  /** The CV URL found on the page, if any: the first candidate's href, resolved, unless it is empty. */
  function CvChoice(anchors: seq<DetailAnchor>, profileUrl: string): Option<string> {
    var links := CvCandidates(anchors);
    if links == [] then None
    else
      var href := links[0].href.GetOr("");
      if href == "" then None else Some(ResolveCv(href, profileUrl))
  }

  /** A resolved CV URL starts with `http` and ends with the href; an href already starting with `http` is kept as is. */
  lemma ResolveCvShape(href: string, profileUrl: string)
    ensures StartsWith(ResolveCv(href, profileUrl), "http")
    ensures EndsWith(ResolveCv(href, profileUrl), href)
    ensures StartsWith(href, "http") ==> ResolveCv(href, profileUrl) == href
  {
    var r := ResolveCv(href, profileUrl);
    if !StartsWith(href, "http") {
      var base := if Contains(profileUrl, "cdep.ro") then DEPUTY_PROFILE_BASE else SENATOR_PROFILE_BASE;
      assert r[..4] == base[..4];
      assert r[|r| - |href|..] == href;
    }
  }

  /**
   * Where the CV URL comes from: anchor `j`, whose href is non-empty and resolves to it.
   * That anchor is the first document link when the page has one; only when it has none
   * is it the first CV-labelled link.
   */
  lemma CvChoiceSource(anchors: seq<DetailAnchor>, profileUrl: string) returns (j: nat)
    ensures CvChoice(anchors, profileUrl).Some? ==>
      j < |anchors| && anchors[j].href.Some? && anchors[j].href.value != "" &&
      CvChoice(anchors, profileUrl) == Some(ResolveCv(anchors[j].href.value, profileUrl)) &&
      if exists i :: 0 <= i < |anchors| && IsDocumentLink(anchors[i]) then
        IsDocumentLink(anchors[j]) && forall i :: 0 <= i < j ==> !IsDocumentLink(anchors[i])
      else
        IsCvLabelLink(anchors[j]) && forall i :: 0 <= i < j ==> !IsCvLabelLink(anchors[i])
  {
    var d := FilterHead(anchors, IsDocumentLink);
    var c := FilterHead(anchors, IsCvLabelLink);
    j := if Filter(anchors, IsDocumentLink) != [] then d else c;
  }

  /**
   * The first document link decides the CV URL: an empty href gives none, any other href
   * gives that href, resolved, whatever the later anchors are.
   */
  lemma CvChoiceFromFirstDocument(anchors: seq<DetailAnchor>, profileUrl: string, j: nat)
    requires j < |anchors| && IsDocumentLink(anchors[j])
    requires forall i :: 0 <= i < j ==> !IsDocumentLink(anchors[i])
    ensures CvChoice(anchors, profileUrl) ==
      if anchors[j].href.value == "" then None else Some(ResolveCv(anchors[j].href.value, profileUrl))
  {
    var k := FilterHead(anchors, IsDocumentLink);
    assert k == j;
  }

  /**
   * On a page without document links, the first CV-labelled link decides the CV URL: an
   * absent or empty href gives none, any other href gives that href, resolved.
   */
  lemma CvChoiceFromFirstLabel(anchors: seq<DetailAnchor>, profileUrl: string, j: nat)
    requires forall i :: 0 <= i < |anchors| ==> !IsDocumentLink(anchors[i])
    requires j < |anchors| && IsCvLabelLink(anchors[j])
    requires forall i :: 0 <= i < j ==> !IsCvLabelLink(anchors[i])
    ensures CvChoice(anchors, profileUrl) ==
      if anchors[j].href.GetOr("") == "" then None else Some(ResolveCv(anchors[j].href.value, profileUrl))
  {
    var d := FilterHead(anchors, IsDocumentLink);
    var k := FilterHead(anchors, IsCvLabelLink);
    assert k == j;
  }

  /** A page with neither a document link nor a CV-labelled link yields no CV URL. */
  lemma CvChoiceNoCandidate(anchors: seq<DetailAnchor>, profileUrl: string)
    requires forall i :: 0 <= i < |anchors| ==> !IsDocumentLink(anchors[i]) && !IsCvLabelLink(anchors[i])
    ensures CvChoice(anchors, profileUrl) == None
  {
    var d := FilterHead(anchors, IsDocumentLink);
    var c := FilterHead(anchors, IsCvLabelLink);
  }

  // ---- the whole enrichment ----

  /** `member[key] = value` when a value was found; otherwise the field keeps what it had. */
  function Refresh(current: Option<string>, found: Option<string>): Option<string> {
    if found.Some? then found else current
  }

  /** The member as `scrape_member_details` leaves it. */
  function Enriched(m: Member, response: DetailResponse): Member {
    if m.profileUrl.None? || m.profileUrl.value == "" then m
    else
      match response
      case Unreachable => m
      case Loaded(page, outcome) =>
        var afterEmail := m.(email := Refresh(m.email, EmailChoice(page.emails)));
        if outcome == RaisedAfterEmail then afterEmail
        else
          var afterPhone := afterEmail.(phone := Refresh(m.phone, PhoneChoice(page)));
          if outcome == RaisedAfterPhone then afterPhone
          else afterPhone.(cvUrl := Refresh(m.cvUrl, CvChoice(page.anchors, m.profileUrl.value)))
  }

  /**
   * Enrichment changes only the optional fields, and never removes one: a present email,
   * phone or CV URL stays present, and a member that had an email still has one.
   */
  lemma EnrichedMonotone(m: Member, response: DetailResponse)
    ensures var r := Enriched(m, response);
      r.name == m.name && r.county == m.county && r.party == m.party &&
      r.chamber == m.chamber && r.profileUrl == m.profileUrl &&
      (m.email.Some? ==> r.email.Some?) && (m.phone.Some? ==> r.phone.Some?) &&
      (m.cvUrl.Some? ==> r.cvUrl.Some?) &&
      (HasEmail(m) ==> HasEmail(r))
  {
    var r := Enriched(m, response);
    if r.email != m.email {
      var page := response.page;
      var j := EmailChoiceFirst(page.emails);
      assert r.email == Some(page.emails[j]);
      assert page.emails[j] != "";
    }
  }

  /**
   * A member with no profile URL, or an empty one, and a member whose profile request
   * failed, come back exactly as they were.
   */
  lemma EnrichedUnchangedOnFailure(m: Member, response: DetailResponse)
    requires m.profileUrl.None? || m.profileUrl.value == "" || response.Unreachable?
    ensures Enriched(m, response) == m
  {
  }

  /**
   * When the first CV candidate has an empty or missing href, or there is no candidate, a
   * completed enrichment leaves the CV URL the member already had.
   */
  lemma EnrichedKeepsCvWithoutHref(m: Member, page: DetailPage)
    requires CvCandidates(page.anchors) == [] || CvCandidates(page.anchors)[0].href.GetOr("") == ""
    ensures Enriched(m, Loaded(page, Completed)).cvUrl == m.cvUrl
  {
  }

  /**
   * Fields set before an exception stay set: an exception after the email step keeps the
   * email a normal run would set and nothing else; one after the phone step keeps the email
   * and phone of a normal run and leaves the CV URL alone.
   */
  lemma EnrichedPartialProgress(m: Member, page: DetailPage)
    ensures var full := Enriched(m, Loaded(page, Completed));
      var e := Enriched(m, Loaded(page, RaisedAfterEmail));
      var p := Enriched(m, Loaded(page, RaisedAfterPhone));
      e == m.(email := full.email) &&
      p == m.(email := full.email, phone := full.phone)
  {
  }

  /** Enriching again from the same page changes nothing more. */
  lemma EnrichedIdempotent(m: Member, response: DetailResponse)
    ensures Enriched(Enriched(m, response), response) == Enriched(m, response)
  {
  }

  /**
   * A record fresh from a listing, whose page is fetched and processed to the end, gets
   * exactly the email, phone and CV URL chosen from that page.
   */
  lemma EnrichedFreshRecord(m: Member, page: DetailPage)
    requires m.profileUrl.Some? && m.profileUrl.value != ""
    requires m.email.None? && m.phone.None? && m.cvUrl.None?
    ensures var r := Enriched(m, Loaded(page, Completed));
      r.email == EmailChoice(page.emails) &&
      r.phone == PhoneChoice(page) &&
      r.cvUrl == CvChoice(page.anchors, m.profileUrl.value)
  {
  }
}
