/** Concrete listing and profile pages, and what the scraper makes of them. */
module Scenarios {
  import opened Wrappers
  import opened Seqs
  import opened Text
  import opened Config
  import opened Records
  import opened Listing
  import opened Details

  /** `strip` removes the padding around a name. */
  lemma StripNameExample()
    ensures Strip(" A. Popescu ") == "A. Popescu"
  {
    assert " A. Popescu "[1..] == "A. Popescu ";
    assert "A. Popescu "[..10] == "A. Popescu";
    StripFixedIffUnpadded("A. Popescu");
  }

  /** `strip` leaves unpadded cells alone. */
  lemma StripCellsExample()
    ensures Strip("CLUJ") == "CLUJ" && Strip("Group X") == "Group X" && Strip("") == ""
  {
    StripFixedIffUnpadded("CLUJ");
    StripFixedIffUnpadded("Group X");
  }

  /** The profile URL `https://www.cdep.ro/pls/parlam/structura2015.mp?idm=7` of the example deputy. */
  const POPESCU_PROFILE: string := DEPUTY_PROFILE_BASE + "structura2015.mp?idm=7"

  /** The record built from a named deputy link in a full row. */
  lemma DeputyRecordExample()
    ensures DeputyRecord(DeputyAnchor(" A. Popescu ", Some("structura2015.mp?idm=7"), Some(["1", "CLUJ", "Group X"])))
      == Member("A. Popescu", "CLUJ", "Group X", DEPUTIES_CHAMBER,
                Some(POPESCU_PROFILE), None, None, None)
  {
    StripNameExample();
    StripCellsExample();
    var cells := ["1", "CLUJ", "Group X"];
    assert cells[1] == "CLUJ" && cells[2] == "Group X";
  }

  /**
   * A listing with one named deputy in a full row and one anchor with no text yields
   * exactly one record: the name, the row's county and party cells, the profile URL and
   * no contact data.
   */
  lemma DeputyListingExample()
    ensures DeputyListing([
        DeputyAnchor(" A. Popescu ", Some("structura2015.mp?idm=7"), Some(["1", "CLUJ", "Group X"])),
        DeputyAnchor("", Some("structura2015.mp?idm=8"), None)])
      == [Member("A. Popescu", "CLUJ", "Group X", DEPUTIES_CHAMBER,
                 Some(POPESCU_PROFILE), None, None, None)]
  {
    var named := DeputyAnchor(" A. Popescu ", Some("structura2015.mp?idm=7"), Some(["1", "CLUJ", "Group X"]));
    var blank := DeputyAnchor("", Some("structura2015.mp?idm=8"), None);
    ContainsAt(named.href.value, "structura2015.mp?", 0);
    ContainsAt(blank.href.value, "structura2015.mp?", 0);
    assert IsDeputyLink(named) && IsDeputyLink(blank);
    assert Filter([blank], IsDeputyLink) == [blank] by {
      assert [blank][1..] == [];
    }
    var links := [named, blank];
    assert DeputyLinks(links) == links by {
      assert links[1..] == [blank];
    }
    DeputyRecordExample();
    StripNameExample();
    var record := DeputyRecord(named);
    assert DeputyRecord(blank).name == "";
    assert links[..1] == [named] && links[..1][..0] == [];
    assert Listed([named], DeputyRecord) == [record];
  }

  /** An address on another domain is filtered out: it lacks a character of each institutional domain. */
  lemma ForeignEmailExample()
    ensures !IsInstitutionalEmail("press@gov.example")
  {
    var e := "press@gov.example";
    assert 'c' !in e && 'n' !in e && 't' !in e;
    if Contains(e, "@cdep.ro") { ContainsKeepsChars(e, "@cdep.ro", 'c'); }
    if Contains(e, "@senat.ro") { ContainsKeepsChars(e, "@senat.ro", 'n'); }
    if Contains(e, "@parlament.ro") { ContainsKeepsChars(e, "@parlament.ro", 't'); }
  }

  /** An address on the Chamber of Deputies domain is institutional. */
  lemma InstitutionalEmailExample()
    ensures IsInstitutionalEmail("j.popescu@cdep.ro")
  {
    var chosen := "j.popescu@cdep.ro";
    assert chosen[9..][..8] == "@cdep.ro";
    ContainsAt(chosen, "@cdep.ro", 9);
  }

  /** Of the extracted addresses the first on an institutional domain is kept; with none, no email is chosen. */
  lemma EmailExample()
    ensures EmailChoice(["press@gov.example", "j.popescu@cdep.ro", "office@senat.ro"]) == Some("j.popescu@cdep.ro")
    ensures EmailChoice(["press@gov.example"]) == None
  {
    ForeignEmailExample();
    InstitutionalEmailExample();
    var emails := ["press@gov.example", "j.popescu@cdep.ro", "office@senat.ro"];
    assert emails[1..] == ["j.popescu@cdep.ro", "office@senat.ro"];
    assert ["press@gov.example"][1..] == [];
  }

  /** A Chamber of Deputies profile URL mentions `cdep.ro`. */
  lemma CdepProfileExample()
    ensures Contains(POPESCU_PROFILE, "cdep.ro")
  {
    var base := DEPUTY_PROFILE_BASE;
    assert base[12] == 'c' && base[13] == 'd' && base[14] == 'e' && base[15] == 'p';
    assert base[16] == '.' && base[17] == 'r' && base[18] == 'o';
    assert POPESCU_PROFILE[12..][..7] == base[12..19] == "cdep.ro";
    ContainsAt(POPESCU_PROFILE, "cdep.ro", 12);
  }

  /** `cv_popescu.pdf` is a relative link to a PDF document. */
  lemma PdfLinkExample()
    ensures HasDocumentExtension("cv_popescu.pdf") && !StartsWith("cv_popescu.pdf", "http")
  {
    var href := "cv_popescu.pdf";
    var folded := FoldAll(href);
    assert folded[10] == '.' && folded[11] == 'p' && folded[12] == 'd' && folded[13] == 'f';
    assert folded[10..] == ".pdf";
    assert href[0] != 'h';
  }

  /** `re.I` makes the extension test case-blind: `CV.PDF` and `cv.Docx` are document links. */
  lemma UpperCaseDocumentExample()
    ensures HasDocumentExtension("CV.PDF") && HasDocumentExtension("cv.Docx")
  {
    var pdf := FoldAll("CV.PDF");
    assert pdf[2] == '.' && pdf[3] == 'p' && pdf[4] == 'd' && pdf[5] == 'f';
    assert pdf[2..] == ".pdf";
    var docx := FoldAll("cv.Docx");
    assert docx[2] == '.' && docx[3] == 'd' && docx[4] == 'o' && docx[5] == 'c' && docx[6] == 'x';
    assert docx[2..] == ".docx";
  }

  /** A relative document link on a Chamber of Deputies profile resolves against the cdep base. */
  lemma CvExample()
    ensures CvChoice([DetailAnchor(Some("cv_popescu.pdf"), None)], POPESCU_PROFILE)
      == Some(DEPUTY_PROFILE_BASE + "cv_popescu.pdf")
  {
    CdepProfileExample();
    PdfLinkExample();
    var anchor := DetailAnchor(Some("cv_popescu.pdf"), None);
    assert Filter([anchor], IsDocumentLink) == [anchor] by {
      assert [anchor][1..] == [];
    }
  }

  /** `+40 721 234 567` satisfies the international pattern, split into its two groups. */
  lemma InternationalMatchExample()
    ensures IsInternationalMatch(InternationalMatch("+40", " 721 234 567"))
  {
    var national := "721 234 567";
    assert national[3..] == " 234 567" && " 234 567"[4..] == " 567" && " 567"[4..] == [];
    assert DigitGroups(" 567", 1);
    assert DigitGroups(" 234 567", 2);
    assert IsNationalNumber(national);
    assert " 721 234 567"[1..] == national;
  }

  /** The page text contains the whole international number. */
  lemma PhoneTextExample()
    ensures Contains("Tel: +40 721 234 567", "+40" + " 721 234 567")
  {
    var number := "+40" + " 721 234 567";
    assert "Tel: +40 721 234 567" == "Tel: " + number;
    assert ("Tel: " + number)[5..] == number;
    ContainsAt("Tel: " + number, number, 5);
  }

  /** `+40 721 234 567` on a profile page stores only the captured `+40`. */
  lemma InternationalPhoneExample()
    ensures var page := DetailPage("Tel: +40 721 234 567", [], [InternationalMatch("+40", " 721 234 567")], [], []);
      WellFormed(page) && PhoneChoice(page) == Some("+40")
  {
    var page := DetailPage("Tel: +40 721 234 567", [], [InternationalMatch("+40", " 721 234 567")], [], []);
    InternationalMatchExample();
    PhoneTextExample();
    PhonePrecedence(page);
  }

  /**
   * The text of a senator's parent element, with the district line before the group line:
   * "Circumscripţia electorală nr.13 CLUJ\nGrupul parlamentar PSD".
   */
  const SENATOR_TEXT: string := LabelText(District) + "13 CLUJ\n" + LabelText(Group) + " PSD"

  /** The characters of the text that the two patterns look at after their labels. */
  lemma SenatorTextLayout()
    ensures |SENATOR_TEXT| == 59
    ensures StartsWith(SENATOR_TEXT, LabelText(District))
    ensures SENATOR_TEXT[29] == '1' && SENATOR_TEXT[30] == '3' && SENATOR_TEXT[31] == ' '
    ensures SENATOR_TEXT[32..36] == "CLUJ" && SENATOR_TEXT[36] == '\n'
    ensures StartsWith(SENATOR_TEXT[37..], LabelText(Group))
    ensures SENATOR_TEXT[55] == ' ' && SENATOR_TEXT[56..] == "PSD"
  {
    var a, b, c, d := LabelText(District), "13 CLUJ\n", LabelText(Group), " PSD";
    assert SENATOR_TEXT == a + b + c + d;
    assert SENATOR_TEXT[..29] == a;
    assert SENATOR_TEXT[29..37] == b;
    assert SENATOR_TEXT[37..55] == c;
    assert SENATOR_TEXT[55..] == d;
    assert SENATOR_TEXT[32..36] == b[3..7];
    assert SENATOR_TEXT[37..][..18] == c;
    assert SENATOR_TEXT[56..] == d[1..];
  }

  /** The district pattern matches at the start of the text and captures the rest of that line. */
  lemma DistrictExample()
    ensures LabelledValue(SENATOR_TEXT, District) == "CLUJ"
  {
    var s := SENATOR_TEXT;
    SenatorTextLayout();
    assert Span(s, 31, IsDigit) == 0;
    assert Span(s, 29, IsDigit) == 2;
    assert Span(s, 32, IsSpace) == 0;
    assert Span(s, 31, IsSpace) == 1;
    assert s[32] == 'C' && s[33] == 'L' && s[34] == 'U' && s[35] == 'J';
    assert Span(s, 36, NotNewline) == 0;
    assert Span(s, 32, NotNewline) == 4;
    assert MatchAt(s, 0, District) == Some("CLUJ");
    assert MatchesIn(s, District)(0) == Some("CLUJ");
    StripCellsExample();
  }

  /** No character before the second line can start the group label. */
  lemma FirstLineHasNoG()
    ensures forall k :: 0 <= k < 37 ==> SENATOR_TEXT[k] != LabelText(Group)[0]
  {
    assert SENATOR_TEXT[..37] == LabelText(District) + "13 CLUJ\n";
    assert forall k :: 0 <= k < 37 ==> SENATOR_TEXT[..37][k] != 'G';
  }

  /** At the start of the second line the group pattern captures the rest of that line. */
  lemma GroupMatch()
    ensures MatchAt(SENATOR_TEXT, 37, Group) == Some("PSD")
  {
    var s := SENATOR_TEXT;
    SenatorTextLayout();
    assert Span(s, 56, IsSpace) == 0;
    assert Span(s, 55, IsSpace) == 1;
    assert s[56] == 'P' && s[57] == 'S' && s[58] == 'D';
    assert Span(s, 56, NotNewline) == 3;
    assert s[56..59] == "PSD";
    assert SpaceThenLine(s, 55) == Some("PSD");
  }

  /** The group pattern first matches on the second line and captures the rest of it. */
  lemma GroupExample()
    ensures LabelledValue(SENATOR_TEXT, Group) == "PSD"
  {
    var s := SENATOR_TEXT;
    SenatorTextLayout();
    FirstLineHasNoG();
    SearchSkips(s, 0, 37, Group);
    GroupMatch();
    assert MatchesIn(s, Group)(37) == Some("PSD");
    assert Search(s, 0, Group) == Some("PSD");
    StripFixedIffUnpadded("PSD");
  }
}
