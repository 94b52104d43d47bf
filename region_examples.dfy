/** A worked example of the region classifier: "Wigan WN1 1AA". */
module RegionExamples {
  import opened Seqs
  import opened Text
  import opened RegionParser

  const Wigan: string := "Wigan WN1 1AA"
  const WiganUpper: string := "WIGAN WN1 1AA"

  lemma {:induction false} WiganUpperCase()
    ensures Upper(Wigan) == WiganUpper
  {
  }

  lemma {:induction false} NoMatchAtStart()
    ensures MatchAt(WiganUpper, 0).None?
  {
    var u := WiganUpper;
    assert u[1] == 'I' && u[2] == 'G';
    forall i | 0 <= i < |Shapes| ensures !ShapeMatches(u, 0, Shapes[i]) {
      ShapesValid(i);
    }
  }

  lemma {:induction false} NoMatchInsideWord(p: nat)
    requires 1 <= p <= 4
    ensures MatchAt(WiganUpper, p).None?
  {
    var u := WiganUpper;
    assert IsWordChar(u[p - 1]) && IsWordChar(u[p]);
  }

  lemma {:induction false} NoMatchAtSpace()
    ensures MatchAt(WiganUpper, 5).None?
  {
    var u := WiganUpper;
    assert !IsUpperLetter(u[5]);
    forall i | 0 <= i < |Shapes| ensures !ShapeMatches(u, 5, Shapes[i]) {
      if ShapeMatches(u, 5, Shapes[i]) {
        ShapesValid(i);
        ShapeMatchStart(u, 5, Shapes[i]);
      }
    }
  }

  /** The characters of "WIGAN WN1 1AA" from the space before the postcode on. */
  lemma {:induction false} WiganChars()
    ensures |WiganUpper| == 13 && WiganUpper[5] == ' '
    ensures WiganUpper[6] == 'W' && WiganUpper[7] == 'N' && WiganUpper[8] == '1'
    ensures WiganUpper[9] == ' ' && WiganUpper[10] == '1' && WiganUpper[11] == 'A' && WiganUpper[12] == 'A'
  {
  }

  /** "WN1 1AA" matches with two letters, one digit and no trailing letter. */
  lemma {:induction false} PostcodeShapeMatches()
    ensures ShapeMatches(WiganUpper, 6, Shape(2, 1, 0))
  {
    WiganChars();
    var u := WiganUpper;
    assert SpaceRun(u, 9) == 1 by {
      assert SpaceRun(u, 10) == 0;
    }
  }

  /** The shapes tried before it need a second digit or a trailing letter
      where "WN1 1AA" has a space. */
  lemma {:induction false} EarlierShapesFail(j: nat)
    requires j < 3
    ensures !ShapeMatches(WiganUpper, 6, Shapes[j])
  {
    WiganChars();
    var u := WiganUpper;
    assert !IsDigit(u[9]) && !IsUpperLetter(u[9]);
  }

  lemma {:induction false} MatchAtPostcode()
    ensures MatchAt(WiganUpper, 6) == Some(Shape(2, 1, 0))
  {
    PostcodeShapeMatches();
    forall j | 0 <= j < 3 ensures !ShapeMatches(WiganUpper, 6, Shapes[j]) {
      EarlierShapesFail(j);
    }
    MatchAtFirst(WiganUpper, 6, 3);
  }

  /** The leftmost match is at "WN1 1AA". */
  lemma {:induction false} WiganSearch()
    ensures SearchFrom(WiganUpper, 0) == Some((6, Shape(2, 1, 0)))
  {
    NoMatchAtStart();
    NoMatchInsideWord(1);
    NoMatchInsideWord(2);
    NoMatchInsideWord(3);
    NoMatchInsideWord(4);
    NoMatchAtSpace();
    MatchAtPostcode();
  }

  lemma {:induction false} WiganGroup()
    ensures WiganUpper[6..9] == "WN1"
  {
  }

  lemma {:induction false} WiganArea(sh: Shape)
    requires sh == Shape(2, 1, 0) && ShapeMatches(WiganUpper, 6, sh)
    ensures AreaOfMatch(WiganUpper, 6, sh) == "WN1"
  {
    AreaOfMatchSlice(WiganUpper, 6, sh);
    WiganGroup();
  }

  /** The area extracted from "Wigan WN1 1AA" keeps its digit. */
  lemma {:induction false} WiganPostcodeArea()
    ensures ExtractPostcodeArea(Some(Wigan)) == Some("WN1")
  {
    WiganUpperCase();
    WiganSearch();
    ExtractPostcodeAreaOfMatch(Wigan, 6, Shape(2, 1, 0));
    WiganArea(Shape(2, 1, 0));
  }

  lemma {:induction false} WiganEnds()
    ensures !IsSpace(Wigan[0]) && !IsSpace(Wigan[|Wigan| - 1])
  {
  }

  lemma {:induction false} WiganNoComma()
    ensures ',' !in Wigan
  {
  }

  lemma {:induction false} WiganHasNoCommaCity()
    ensures Strip(Wigan) == Wigan
    ensures CommaCityRegion(Strip(Wigan)).None?
  {
    WiganEnds();
    StripTrimmed(Wigan);
    WiganNoComma();
  }

  lemma {:induction false} WiganLower()
    ensures Lower(Wigan) == "wigan wn1 1aa"
  {
  }

  /** "n1" occurs in "wigan wn1 1aa", inside "wn1". */
  lemma {:induction false} N1InWigan(text: string)
    requires text == "wigan wn1 1aa"
    ensures IsSubstring("n1", text)
  {
    assert OccursAt("n1", text, 7);
    IsSubstringAt("n1", text);
  }

  lemma {:induction false} N1IsLondon()
    ensures "n1" in LondonKeywords
  {
  }

  /** As written, "Wigan WN1 1AA" is classified as London: the postcode stage
      looks up "WN1", which is not a key, and the keyword scan then meets the
      London keyword "n1" inside "wn1" before it reaches "wigan". */
  lemma {:induction false} WiganAsWritten()
    ensures ExtractRegionFromAddress(Some(Wigan)) == "London"
  {
    WiganHasNoCommaCity();
    WiganLower();
    N1InWigan(Lower(Wigan));
    N1IsLondon();
    LondonKeywordWins(Some(Wigan));
  }

  /** "WN" is bound only under the North West. */
  lemma {:induction false} WNIsNorthWest()
    ensures "WN" in PostcodeRegions() && PostcodeRegions()["WN"] == "North West"
  {
    var pre := LondonAreas + SouthEastAreas + SouthWestAreas + EastOfEnglandAreas
               + EastMidlandsAreas + WestMidlandsAreas + YorkshireAreas;
    var post := NorthEastAreas + ScotlandAreas + WalesAreas + NorthernIrelandAreas;
    assert LacksKey(NorthEastAreas, "WN");
    assert LacksKey(ScotlandAreas, "WN");
    assert LacksKey(WalesAreas, "WN");
    assert LacksKey(NorthernIrelandAreas, "WN");
    LacksKeyAppend(NorthEastAreas, ScotlandAreas, "WN");
    LacksKeyAppend(NorthEastAreas + ScotlandAreas, WalesAreas, "WN");
    LacksKeyAppend(NorthEastAreas + ScotlandAreas + WalesAreas, NorthernIrelandAreas, "WN");
    assert PostcodeEntries == pre + NorthWestAreas + post;
    LookupLastBinding(pre, NorthWestAreas, post, 12);
  }

  lemma {:induction false} WN1Letters()
    ensures AreaLetters("WN1") == "WN"
  {
  }

  /** With the correction, "Wigan WN1 1AA" is classified by its postcode area
      "WN" as North West. */
  lemma {:induction false} WiganCorrected()
    ensures ExtractRegionCorrected(Some(Wigan)) == "North West"
  {
    WiganHasNoCommaCity();
    WiganPostcodeArea();
    WN1Letters();
    WNIsNorthWest();
    CorrectedUsesPostcodeArea(Some(Wigan), "WN1");
  }
}
