/**
 * What `scrape_deputies` and `scrape_senators` build from a parsed listing page:
 * which anchors are member links, the record each named link becomes, and the
 * two labelled searches that find a senator's county and parliamentary group.
 */
module Listing {
  import opened Wrappers
  import opened Seqs
  import opened Text
  import opened Records
  import Config

  /** The prefix the scraper writes before a deputy's href (and a relative CV href on cdep.ro). */
  const DEPUTY_PROFILE_BASE: string := "https://www.cdep.ro/pls/parlam/"
  /** The prefix the scraper writes before a senator's href (and any other relative CV href). */
  const SENATOR_PROFILE_BASE: string := "https://www.senat.ro/"

  /** The prefixes hard-coded in the scraper are the configured base URLs. */
  lemma BaseUrlsMatchConfig()
    ensures DEPUTY_PROFILE_BASE == Config.DEPUTIES_BASE_URL
    ensures SENATOR_PROFILE_BASE == Config.SENATE_BASE_URL
  {
  }

  // ---- The generic listing loop ----

  /**
   * The records a listing loop appends: `make` applied to each link in order, keeping
   * those whose (stripped) name is non-empty.
   */
  function Listed<A>(links: seq<A>, make: A -> Member): (r: seq<Member>)
    ensures |r| <= |links|
  {
    if links == [] then []
    else
      var last := make(links[|links| - 1]);
      Listed(links[..|links| - 1], make) + (if last.name != "" then [last] else [])
  }

  /** The positions of the links `Listed` keeps, in order. */
  function NamedPositions<A>(links: seq<A>, make: A -> Member): (idx: seq<nat>)
    ensures forall k :: 0 <= k < |idx| ==> idx[k] < |links|
  {
    if links == [] then []
    else
      var n := |links| - 1;
      NamedPositions(links[..n], make) + (if make(links[n]).name != "" then [n] else [])
  }

  /** Record `k` of the listing is made from the link at the `k`-th kept position, and is named. */
  lemma {:induction false} NamedPositionsRecords<A>(links: seq<A>, make: A -> Member)
    ensures var idx, r := NamedPositions(links, make), Listed(links, make);
      |idx| == |r| &&
      forall k :: 0 <= k < |idx| ==> r[k] == make(links[idx[k]]) && r[k].name != ""
  {
    if links != [] {
      var n := |links| - 1;
      var init := links[..n];
      NamedPositionsRecords(init, make);
      var prev, before := NamedPositions(init, make), Listed(init, make);
      var r := Listed(links, make);
      assert r[..|before|] == before;
      forall k | 0 <= k < |prev|
        ensures r[k] == make(links[prev[k]])
      {
        assert r[k] == before[k] == make(init[prev[k]]);
      }
    }
  }

  /** The kept positions strictly increase, so the listing keeps link order. */
  lemma {:induction false} NamedPositionsIncrease<A>(links: seq<A>, make: A -> Member)
    ensures forall k, l :: 0 <= k < l < |NamedPositions(links, make)| ==>
              NamedPositions(links, make)[k] < NamedPositions(links, make)[l]
  {
    if links != [] {
      var n := |links| - 1;
      NamedPositionsIncrease(links[..n], make);
      var prev, idx := NamedPositions(links[..n], make), NamedPositions(links, make);
      forall k, l | 0 <= k < l < |idx|
        ensures idx[k] < idx[l]
      {
        assert idx[k] == prev[k] < n;
        if l < |prev| {
          assert idx[l] == prev[l] > prev[k];
        } else {
          assert idx[l] == n;
        }
      }
    }
  }

  /** Every link whose record is named is kept. */
  lemma {:induction false} NamedPositionsComplete<A>(links: seq<A>, make: A -> Member)
    ensures forall j :: 0 <= j < |links| && make(links[j]).name != "" ==> j in NamedPositions(links, make)
  {
    if links != [] {
      var n := |links| - 1;
      var init := links[..n];
      NamedPositionsComplete(init, make);
      forall j | 0 <= j < n
        ensures links[j] == init[j]
      {
      }
    }
  }

  /**
   * The listing is the named links' records in link order: `idx` gives, for each record,
   * the position of the link it was made from; positions strictly increase, every named
   * link has a record and no unnamed link has one.
   */
  lemma ListedOrder<A>(links: seq<A>, make: A -> Member) returns (idx: seq<nat>)
    ensures |idx| == |Listed(links, make)|
    ensures forall k :: 0 <= k < |idx| ==>
              idx[k] < |links| && Listed(links, make)[k] == make(links[idx[k]]) &&
              make(links[idx[k]]).name != ""
    ensures forall k, l :: 0 <= k < l < |idx| ==> idx[k] < idx[l]
    ensures forall j :: 0 <= j < |links| && make(links[j]).name != "" ==> j in idx
  {
    idx := NamedPositions(links, make);
    NamedPositionsRecords(links, make);
    NamedPositionsIncrease(links, make);
    NamedPositionsComplete(links, make);
  }

  /** One more link extends the listing by that link's record, if it is named (the loop's step). */
  lemma ListedPrefix<A>(links: seq<A>, i: nat, make: A -> Member)
    requires i < |links|
    ensures Listed(links[..i + 1], make) ==
            Listed(links[..i], make) + (if make(links[i]).name != "" then [make(links[i])] else [])
  {
    assert links[..i + 1][..i] == links[..i];
  }

  // ---- Deputies ----

  /** An anchor of the deputies listing: its text, its href attribute and, when it sits in a table row, the texts of that row's cells. */
  datatype DeputyAnchor = DeputyAnchor(text: string, href: Option<string>, row: Option<seq<string>>)

  /** `find_all('a', href=re.compile(r'structura2015\.mp\?'))` keeps anchors whose href contains that text. */
  predicate IsDeputyLink(a: DeputyAnchor) {
    a.href.Some? && Contains(a.href.value, "structura2015.mp?")
  }

  function DeputyLinks(anchors: seq<DeputyAnchor>): seq<DeputyAnchor> {
    Filter(anchors, IsDeputyLink)
  }

  /** The record built from one deputy link (scraper.py lines 42-67). */
  function DeputyRecord(link: DeputyAnchor): Member {
    var county := if link.row.Some? && |link.row.value| >= 2 then Strip(link.row.value[1]) else "";
    var party := if link.row.Some? && |link.row.value| >= 3 then Strip(link.row.value[2]) else "";
    Member(Strip(link.text), county, party, DEPUTIES_CHAMBER,
           Some(DEPUTY_PROFILE_BASE + link.href.GetOr("")), None, None, None)
  }

  /** Everything a successful `scrape_deputies` appends, in order. */
  function DeputyListing(anchors: seq<DeputyAnchor>): seq<Member> {
    Listed(DeputyLinks(anchors), DeputyRecord)
  }

  /**
   * The deputies listing: one record per deputy link with non-empty stripped text, in link
   * order (`idx` are the links' positions); name is that stripped text; profile URL is the
   * cdep prefix plus the href; county and party are the stripped second and third cells
   * when the row has that many cells and `''` otherwise; chamber is the Chamber of
   * Deputies; email, phone and CV URL are absent.
   */
  lemma DeputyListingShape(anchors: seq<DeputyAnchor>) returns (idx: seq<nat>)
    ensures var links, r := DeputyLinks(anchors), DeputyListing(anchors);
      |idx| == |r| &&
      (forall k, l :: 0 <= k < l < |idx| ==> idx[k] < idx[l]) &&
      (forall j :: 0 <= j < |links| && Strip(links[j].text) != "" ==> j in idx) &&
      forall k :: 0 <= k < |r| ==>
        idx[k] < |links| && IsDeputyLink(links[idx[k]]) &&
        var a := links[idx[k]];
        r[k].name == Strip(a.text) && r[k].name != "" &&
        r[k].profileUrl == Some(DEPUTY_PROFILE_BASE + a.href.value) &&
        r[k].county == (if a.row.Some? && |a.row.value| >= 2 then Strip(a.row.value[1]) else "") &&
        r[k].party == (if a.row.Some? && |a.row.value| >= 3 then Strip(a.row.value[2]) else "") &&
        r[k].chamber == DEPUTIES_CHAMBER &&
        r[k].email.None? && r[k].phone.None? && r[k].cvUrl.None?
  {
    var links := DeputyLinks(anchors);
    idx := ListedOrder(links, DeputyRecord);
    forall k | 0 <= k < |idx| ensures IsDeputyLink(links[idx[k]]) {
      assert links[idx[k]] in links;
    }
  }

  // ---- Senators ----

  /** An anchor of the senators listing: its text, its href attribute and the text of its parent element. */
  datatype SenatorAnchor = SenatorAnchor(text: string, href: Option<string>, parentText: Option<string>)

  /** `find_all('a', href=re.compile(r'FisaSenator\.aspx\?ParlamentarID='))`. */
  predicate IsSenatorLink(a: SenatorAnchor) {
    a.href.Some? && Contains(a.href.value, "FisaSenator.aspx?ParlamentarID=")
  }

  function SenatorLinks(anchors: seq<SenatorAnchor>): seq<SenatorAnchor> {
    Filter(anchors, IsSenatorLink)
  }

  /** The two labels searched for in a senator's parent text. */
  datatype Label = District | Group

  /**
   * The literal start of each pattern: `Circumscripţia electorală nr\.(\d+)\s+([^\n]+)` (with
   * a t-cedilla, U+0163) and `Grupul parlamentar\s+([^\n]+)`.
   */
  function LabelText(l: Label): string {
    match l
    case District => "Circumscripţia electorală nr."
    case Group => "Grupul parlamentar"
  }

  predicate IsNewline(c: char) { c == '\n' }
  predicate NotNewline(c: char) { c != '\n' }

  /** The length of the longest run of characters satisfying `f` that starts at `p`. */
  function Span(s: string, p: nat, f: char -> bool): (n: nat)
    requires p <= |s|
    ensures p + n <= |s|
    ensures forall i :: p <= i < p + n ==> f(s[i])
    ensures p + n == |s| || !f(s[p + n])
    decreases |s| - p
  {
    if p < |s| && f(s[p]) then 1 + Span(s, p + 1, f) else 0
  }

  /** The largest `r` with `lo <= r < hi` and `s[r] != '\n'`, if any. */
  function LastNotNewline(s: string, lo: nat, hi: nat): (r: Option<nat>)
    requires hi <= |s|
    ensures r.Some? ==> lo <= r.value < hi && s[r.value] != '\n' &&
                        forall i :: r.value < i < hi ==> s[i] == '\n'
    ensures r.None? ==> forall i :: lo <= i < hi ==> s[i] == '\n'
    decreases hi
  {
    if hi <= lo then None
    else if s[hi - 1] != '\n' then Some(hi - 1)
    else LastNotNewline(s, lo, hi - 1)
  }

  /**
   * The group captured by `\s+([^\n]+)` matched at `q`, if it matches there. `\s+` is greedy
   * and may cross newlines; `[^\n]+` then takes the rest of that line. When the whitespace
   * runs to the end of the text, `\s+` gives characters back until `[^\n]+` can take one.
   */
  function SpaceThenLine(s: string, q: nat): (g: Option<string>)
    requires q <= |s|
    ensures g.Some? ==> g.value != [] && '\n' !in g.value
  {
    var w := Span(s, q, IsSpace);
    if w == 0 then None
    else if q + w < |s| then
      Some(s[q + w .. q + w + Span(s, q + w, NotNewline)])
    else
      match LastNotNewline(s, q + 1, q + w) {
        case Some(r) => Some(s[r .. r + Span(s, r, NotNewline)])
        case None => None
      }
  }

  /**
   * The group a label's pattern captures when it matches at position `i` (for `District`,
   * the second group); no match past the end of the text.
   */
  function MatchAt(s: string, i: nat, l: Label): (g: Option<string>)
    ensures g.Some? ==> i <= |s| && StartsWith(s[i..], LabelText(l)) && g.value != [] && '\n' !in g.value
  {
    var prefix := LabelText(l);
    if i > |s| || !StartsWith(s[i..], prefix) then None
    else
      var p := i + |prefix|;
      match l {
        case Group => SpaceThenLine(s, p)
        case District =>
          var d := Span(s, p, IsDigit);
          if d == 0 then None else SpaceThenLine(s, p + d)
      }
  }

  /** The first `Some` among `f(i)`, `f(i + 1)`, ..., `f(n)`: a left-to-right scan. */
  function FirstSome<T>(f: nat -> Option<T>, i: nat, n: nat): Option<T>
    requires i <= n
    decreases n - i
  {
    if f(i).Some? then f(i)
    else if i == n then None
    else FirstSome(f, i + 1, n)
  }

  /** The scan stops at the first position `pos` where `f` gives a value, and finds nothing only when `f` gives none. */
  lemma {:induction false} FirstSomeIsFirst<T>(f: nat -> Option<T>, i: nat, n: nat) returns (pos: nat)
    requires i <= n
    ensures FirstSome(f, i, n).Some? ==>
              i <= pos <= n && f(pos) == FirstSome(f, i, n) &&
              forall j :: i <= j < pos ==> f(j).None?
    ensures FirstSome(f, i, n).None? ==> forall j :: i <= j <= n ==> f(j).None?
    decreases n - i
  {
    if f(i).Some? || i == n {
      pos := i;
    } else {
      pos := FirstSomeIsFirst(f, i + 1, n);
    }
  }

  /** The pattern's group at each position of `s`. */
  function MatchesIn(s: string, l: Label): nat -> Option<string> {
    (j: nat) => MatchAt(s, j, l)
  }

  /** `re.search`: the group of the leftmost match at or after position `i`. */
  function Search(s: string, i: nat, l: Label): Option<string>
    requires i <= |s|
  {
    FirstSome(MatchesIn(s, l), i, |s|)
  }

  /** The group's stripped value when the label's pattern matches the text, and `''` otherwise. */
  function LabelledValue(text: string, l: Label): string {
    match Search(text, 0, l)
    case Some(g) => Strip(g)
    case None => ""
  }

  /** The record built from one senator link (scraper.py lines 101-134). */
  function SenatorRecord(link: SenatorAnchor): Member {
    var text := link.parentText.GetOr("");
    Member(Strip(link.text), LabelledValue(text, District), LabelledValue(text, Group), SENATE_CHAMBER,
           Some(SENATOR_PROFILE_BASE + link.href.GetOr("")), None, None, None)
  }

  /** Everything a successful `scrape_senators` appends, in order. */
  function SenatorListing(anchors: seq<SenatorAnchor>): seq<Member> {
    Listed(SenatorLinks(anchors), SenatorRecord)
  }

  /**
   * `re.search` finds the FIRST match: when it finds one, `pos` is where it starts and the
   * pattern matches nowhere earlier; when it finds none, the pattern matches nowhere.
   */
  lemma SearchFindsFirst(s: string, i: nat, l: Label) returns (pos: nat)
    requires i <= |s|
    ensures Search(s, i, l).Some? ==>
              i <= pos <= |s| && MatchAt(s, pos, l) == Search(s, i, l) &&
              forall j :: i <= j < pos ==> MatchAt(s, j, l).None?
    ensures Search(s, i, l).None? ==> forall j :: i <= j <= |s| ==> MatchAt(s, j, l).None?
  {
    pos := FirstSomeIsFirst(MatchesIn(s, l), i, |s|);
    forall j: nat
      ensures MatchAt(s, j, l) == MatchesIn(s, l)(j)
    {
    }
  }

  /** Positions whose character cannot start the label are skipped by the search. */
  lemma {:induction false} SearchSkips(s: string, i: nat, j: nat, l: Label)
    requires i <= j <= |s|
    requires forall k :: i <= k < j ==> s[k] != LabelText(l)[0]
    ensures Search(s, i, l) == Search(s, j, l)
    decreases j - i
  {
    if i < j {
      assert s[i..][0] == s[i];
      assert MatchesIn(s, l)(i) == MatchAt(s, i, l) == None;
      SearchSkips(s, i + 1, j, l);
    }
  }

  /**
   * A senator field is `''` when its label does not occur in the text; otherwise it is a
   * stripped piece of a single line: no newline, no surrounding whitespace.
   */
  lemma LabelledValueShape(text: string, l: Label)
    ensures !Contains(text, LabelText(l)) ==> LabelledValue(text, l) == ""
    ensures var v := LabelledValue(text, l);
      '\n' !in v && (v == [] || (!IsSpace(v[0]) && !IsSpace(v[|v| - 1])))
  {
    var pos := SearchFindsFirst(text, 0, l);
    match Search(text, 0, l)
    case Some(g) =>
      assert StartsWith(text[pos..], LabelText(l));
      ContainsAt(text, LabelText(l), pos);
      StripKeepsAbsent(g, '\n');
      StripEnds(g);
    case None =>
  }

  /**
   * The senators listing: one record per senator link with non-empty stripped text, in link
   * order (`idx` are the links' positions); name is that stripped text; profile URL is the
   * senat prefix plus the href; county and party are the labelled values found in the
   * parent's text (`''` with no parent); chamber is the Senate; email, phone and CV URL are absent.
   */
  lemma SenatorListingShape(anchors: seq<SenatorAnchor>) returns (idx: seq<nat>)
    ensures var links, r := SenatorLinks(anchors), SenatorListing(anchors);
      |idx| == |r| &&
      (forall k, l :: 0 <= k < l < |idx| ==> idx[k] < idx[l]) &&
      (forall j :: 0 <= j < |links| && Strip(links[j].text) != "" ==> j in idx) &&
      forall k :: 0 <= k < |r| ==>
        idx[k] < |links| && IsSenatorLink(links[idx[k]]) &&
        var a := links[idx[k]];
        r[k].name == Strip(a.text) && r[k].name != "" &&
        r[k].profileUrl == Some(SENATOR_PROFILE_BASE + a.href.value) &&
        r[k].county == LabelledValue(a.parentText.GetOr(""), District) &&
        r[k].party == LabelledValue(a.parentText.GetOr(""), Group) &&
        r[k].chamber == SENATE_CHAMBER &&
        r[k].email.None? && r[k].phone.None? && r[k].cvUrl.None?
  {
    var links := SenatorLinks(anchors);
    idx := ListedOrder(links, SenatorRecord);
    forall k | 0 <= k < |idx| ensures IsSenatorLink(links[idx[k]]) {
      assert links[idx[k]] in links;
    }
  }
}
