/**
 * The `ParliamentScraper` object: a list of member records that the two listing
 * scrapers append to, that enrichment updates record by record, and that the summary
 * counts.
 */
module Scraper {
  import opened Wrappers
  import opened Seqs
  import opened Text
  import opened Config
  import opened Records
  import opened Listing
  import opened Details

  /** `chamber in ['both', 'deputies']`. */
  predicate WantsDeputies(chamber: string) {
    chamber == "both" || chamber == "deputies"
  }

  /** `chamber in ['both', 'senators']`. */
  predicate WantsSenators(chamber: string) {
    chamber == "both" || chamber == "senators"
  }

  /** What `run` appends from the deputies listing: nothing unless requested and fetched. */
  function DeputiesAppended(chamber: string, page: Fetch<seq<DeputyAnchor>>): seq<Member> {
    if WantsDeputies(chamber) && page.Fetched? then DeputyListing(page.value) else []
  }

  /** What `run` appends from the senators listing: nothing unless requested and fetched. */
  function SenatorsAppended(chamber: string, page: Fetch<seq<SenatorAnchor>>): seq<Member> {
    if WantsSenators(chamber) && page.Fetched? then SenatorListing(page.value) else []
  }

  /** Every record enriched in place, the `i`-th from the `i`-th profile response. */
  function EnrichAll(members: seq<Member>, responses: nat -> DetailResponse): seq<Member> {
    seq(|members|, i requires 0 <= i < |members| => Enriched(members[i], responses(i)))
  }

  /** The member list `run` leaves behind, starting from `start`. */
  function Scraped(start: seq<Member>, scrapeDetails: bool, chamber: string,
                   deputiesPage: Fetch<seq<DeputyAnchor>>, senatorsPage: Fetch<seq<SenatorAnchor>>,
                   responses: nat -> DetailResponse): seq<Member>
  {
    var listed := start + DeputiesAppended(chamber, deputiesPage) + SenatorsAppended(chamber, senatorsPage);
    if scrapeDetails && listed != [] then EnrichAll(listed, responses) else listed
  }

  /** The figures `save_to_json` reports. */
  datatype Summary = Summary(total: nat, deputies: nat, senators: nat, withEmail: nat)

  /**
   * The figures for a member list: deputies and senators are counted apart and together
   * never exceed the total, nor does the email count.
   */
  function SummaryOf(members: seq<Member>): (s: Summary)
    ensures s.total == |members|
    ensures s.deputies + s.senators <= s.total
    ensures s.withEmail <= s.total
  {
    ChambersDisjoint(members, DEPUTIES_CHAMBER, SENATE_CHAMBER);
    Summary(|members|, CountChamber(members, DEPUTIES_CHAMBER), CountChamber(members, SENATE_CHAMBER),
            CountWithEmail(members))
  }

  /**
   * What a run adds up to: the list grows by exactly the requested and fetched listings;
   * the deputies count grows by the deputies listing and the senators count by the senators
   * listing, whether or not details are scraped; with details the email count cannot be
   * lower than before the run, and without them it is unchanged.
   */
  lemma ScrapedCounts(start: seq<Member>, scrapeDetails: bool, chamber: string,
                      deputiesPage: Fetch<seq<DeputyAnchor>>, senatorsPage: Fetch<seq<SenatorAnchor>>,
                      responses: nat -> DetailResponse)
    ensures var r := Scraped(start, scrapeDetails, chamber, deputiesPage, senatorsPage, responses);
      var d, s := DeputiesAppended(chamber, deputiesPage), SenatorsAppended(chamber, senatorsPage);
      |r| == |start| + |d| + |s| &&
      CountChamber(r, DEPUTIES_CHAMBER) == CountChamber(start, DEPUTIES_CHAMBER) + |d| &&
      CountChamber(r, SENATE_CHAMBER) == CountChamber(start, SENATE_CHAMBER) + |s| &&
      CountWithEmail(start) <= CountWithEmail(r) &&
      (!scrapeDetails ==> CountWithEmail(r) == CountWithEmail(start))
  {
    var d, s := DeputiesAppended(chamber, deputiesPage), SenatorsAppended(chamber, senatorsPage);
    var listed := start + d + s;
    if d != [] {
      var _ := DeputyListingShape(deputiesPage.value);
    }
    if s != [] {
      var _ := SenatorListingShape(senatorsPage.value);
    }
    CountChamberUniform(d, DEPUTIES_CHAMBER, SENATE_CHAMBER);
    CountChamberUniform(s, SENATE_CHAMBER, DEPUTIES_CHAMBER);
    CountChamberAppend(start, d, DEPUTIES_CHAMBER);
    CountChamberAppend(start + d, s, DEPUTIES_CHAMBER);
    CountChamberAppend(start, d, SENATE_CHAMBER);
    CountChamberAppend(start + d, s, SENATE_CHAMBER);
    CountWithEmailNone(d);
    CountWithEmailNone(s);
    CountWithEmailAppend(start, d);
    CountWithEmailAppend(start + d, s);
    var r := Scraped(start, scrapeDetails, chamber, deputiesPage, senatorsPage, responses);
    if r != listed {
      forall i | 0 <= i < |listed|
        ensures r[i].chamber == listed[i].chamber && (HasEmail(listed[i]) ==> HasEmail(r[i]))
      {
        EnrichedMonotone(listed[i], responses(i));
      }
      CountChamberPointwise(listed, r, DEPUTIES_CHAMBER);
      CountChamberPointwise(listed, r, SENATE_CHAMBER);
      CountWithEmailMonotone(listed, r);
    }
  }

  class ParliamentScraper {
    /** `self.members`. */
    var members: seq<Member>

    /** A new scraper holds no records. */
    constructor ()
      ensures members == []
    {
      members := [];
    }

    /**
     * The loop both listing scrapers run over their links (lines 41-70 and 100-137): each
     * link's record is appended, in order, when its stripped name is non-empty.
     */
    method AppendNamed<A>(links: seq<A>, make: A -> Member)
      modifies this
      ensures members == old(members) + Listed(links, make)
    {
      ghost var added: seq<Member> := [];
      var i := 0;
      assert links[..0] == [];
      while i < |links|
        invariant 0 <= i <= |links|
        invariant added == Listed(links[..i], make)
        invariant members == old(members) + added
      {
        ListedPrefix(links, i, make);
        var member := make(links[i]);
        if member.name != "" {
          members := members + [member];
          added := added + [member];
        }
        i := i + 1;
      }
      assert links[..i] == links;
    }

    /**
     * `scrape_deputies`: on a fetched listing, appends one record per named deputy link
     * and reports success; on a failed fetch, appends nothing and reports failure.
     */
    method ScrapeDeputies(page: Fetch<seq<DeputyAnchor>>) returns (ok: bool)
      modifies this
      ensures ok <==> page.Fetched?
      ensures members == old(members) + (if page.Fetched? then DeputyListing(page.value) else [])
    {
      if page.Failed? {
        return false;
      }
      var links := DeputyLinks(page.value);
      AppendNamed(links, DeputyRecord);
      return true;
    }

    /**
     * `scrape_senators`: on a fetched listing, appends one record per named senator link
     * and reports success; on a failed fetch, appends nothing and reports failure.
     */
    method ScrapeSenators(page: Fetch<seq<SenatorAnchor>>) returns (ok: bool)
      modifies this
      ensures ok <==> page.Fetched?
      ensures members == old(members) + (if page.Fetched? then SenatorListing(page.value) else [])
    {
      if page.Failed? {
        return false;
      }
      var links := SenatorLinks(page.value);
      AppendNamed(links, SenatorRecord);
      return true;
    }

    /**
     * `scrape_member_details`: the record as the profile page leaves it, step by step
     * (email, then the phone patterns in order until one matches, then the CV link).
     */
    method ScrapeMemberDetails(member: Member, response: DetailResponse) returns (r: Member)
      ensures r == Enriched(member, response)
    {
      r := member;
      if member.profileUrl.None? || member.profileUrl.value == "" {
        return;
      }
      if response.Unreachable? {
        return;
      }
      var page := response.page;

      var emails := page.emails;
      if emails != [] {
        var valid := InstitutionalEmails(emails);
        if valid != [] {
          r := r.(email := Some(valid[0]));
        }
      }
      if response.outcome == RaisedAfterEmail {
        return;
      }

      var afterEmail := r;
      var k := 0;
      while k < |PHONE_PATTERNS|
        invariant 0 <= k <= |PHONE_PATTERNS|
        invariant r == afterEmail
        invariant PhoneChoice(page) == FirstFindall(page, PHONE_PATTERNS[k..])
      {
        // `phones[0]`, or its captured group when the pattern has one
        var phones := Findall(page, PHONE_PATTERNS[k]);
        if phones != [] {
          r := r.(phone := Some(phones[0]));
          break;
        }
        assert PHONE_PATTERNS[k..][1..] == PHONE_PATTERNS[k + 1..];
        k := k + 1;
      }
      if response.outcome == RaisedAfterPhone {
        return;
      }

      var cvLinks := Filter(page.anchors, IsDocumentLink);
      if cvLinks == [] {
        cvLinks := Filter(page.anchors, IsCvLabelLink);
      }
      if cvLinks != [] {
        var cvHref := cvLinks[0].href.GetOr("");
        if cvHref != "" {
          if !StartsWith(cvHref, "http") {
            var baseUrl := if Contains(member.profileUrl.value, "cdep.ro") then DEPUTY_PROFILE_BASE else SENATOR_PROFILE_BASE;
            cvHref := baseUrl + cvHref;
          }
          r := r.(cvUrl := Some(cvHref));
        }
      }
    }

    /** `save_to_json` without the file: the figures it reports for the current list. */
    method SaveToJson() returns (s: Summary)
      ensures s == SummaryOf(members)
    {
      s := SummaryOf(members);
    }

    /**
     * `run`: the requested listings are appended in order (deputies, then senators), each
     * record is then enriched in place from its own profile response when details are
     * requested, and the summary of the final list is reported.
     */
    method Run(scrapeDetails: bool, chamber: string,
               deputiesPage: Fetch<seq<DeputyAnchor>>, senatorsPage: Fetch<seq<SenatorAnchor>>,
               responses: nat -> DetailResponse)
      returns (summary: Summary)
      modifies this
      ensures members == Scraped(old(members), scrapeDetails, chamber, deputiesPage, senatorsPage, responses)
      ensures summary == SummaryOf(members)
    {
      if WantsDeputies(chamber) {
        var _ := ScrapeDeputies(deputiesPage);
      }
      assert members == old(members) + DeputiesAppended(chamber, deputiesPage);
      if WantsSenators(chamber) {
        var _ := ScrapeSenators(senatorsPage);
      }
      ghost var listed := members;
      assert listed == old(members) + DeputiesAppended(chamber, deputiesPage) + SenatorsAppended(chamber, senatorsPage);
      if scrapeDetails && |members| > 0 {
        var i := 0;
        while i < |members|
          invariant 0 <= i <= |members| == |listed|
          invariant forall j :: 0 <= j < i ==> members[j] == Enriched(listed[j], responses(j))
          invariant forall j :: i <= j < |members| ==> members[j] == listed[j]
        {
          var updated := ScrapeMemberDetails(members[i], responses(i));
          members := members[i := updated];
          i := i + 1;
        }
        assert members == EnrichAll(listed, responses);
      }
      summary := SaveToJson();
    }
  }
}
