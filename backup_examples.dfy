/** A worked example of the older dashboard's location parser: the location
    "London|UK, Bristol" names London first and Bristol second. */
module BackupExamples {
  import opened Seqs
  import opened Text
  import opened RegionParser
  import opened BackupApp

  const First: string := "London"
  const Second: string := "UK, Bristol"

  /** "London" has no comma and contains the keyword "london". */
  lemma {:induction false} FirstPartIsLondon(a: string)
    requires a == First
    ensures PartRegion(a) == "London"
  {
    LondonStripped(a);
    LondonLower(a);
    LondonNoComma(a);
    NoCommaNoCityRegion(a);
    LondonKeywordIn(Lower(Strip(a)));
    LondonKeywordWins(Some(a));
  }

  lemma {:induction false} LondonNoComma(a: string)
    requires a == First
    ensures ',' !in a
  {
  }

  lemma {:induction false} LondonStripped(a: string)
    requires a == First
    ensures Strip(a) == a
  {
    StripTrimmed(a);
  }

  lemma {:induction false} LondonLower(a: string)
    requires a == First
    ensures Lower(a) == "london"
  {
  }

  lemma {:induction false} NoCommaNoCityRegion(s: string)
    requires ',' !in s
    ensures CommaCityRegion(s).None?
  {
  }

  lemma {:induction false} LondonKeywordIn(text: string)
    requires text == "london"
    ensures AnyKeywordIn(LondonKeywords, text)
  {
    assert LondonKeywords[0] == "london";
    assert IsSubstring("london", text);
  }

  lemma {:induction false} BristolInSouthWest()
    ensures "bristol" in SouthWestKeywords
  {
    assert SouthWestKeywords[0] == "bristol";
  }

  lemma {:induction false} BristolNotInLondon()
    ensures "bristol" !in LondonKeywords
  {
    forall k | k in LondonKeywords ensures |k| != 7 {
    }
  }

  lemma {:induction false} BristolNotInSouthEast()
    ensures "bristol" !in SouthEastKeywords
  {
    forall i | 0 <= i < |SouthEastKeywords| ensures SouthEastKeywords[i] != "bristol" {
      var k := SouthEastKeywords[i];
      if |k| == 7 {
        assert k[0] != 'b';
      }
    }
  }

  /** A city listed under the South West and not under London or the South
      East is placed in the South West. */
  lemma {:induction false} SouthWestCity(city: string)
    requires city in SouthWestKeywords && city !in LondonKeywords && city !in SouthEastKeywords
    ensures RegionOfCity(city) == Some("South West")
  {
    assert city in KeywordLists[2];
    var r := RegionOfCity(city);
    var i :| 0 <= i < |KeywordLists| && r.value == RegionNames[i] && city in KeywordLists[i]
             && forall j :: 0 <= j < i ==> city !in KeywordLists[j];
    assert i == 2;
  }

  /** " Bristol" stripped, lower-cased and stripped again is "bristol". */
  lemma {:induction false} BristolCity()
    ensures Strip(Lower(Strip(" Bristol"))) == "bristol"
  {
    BristolStripped();
    BristolLower();
    StripTrimmed("bristol");
  }

  lemma {:induction false} BristolStripped()
    ensures Strip(" Bristol") == "Bristol"
  {
    var t := " Bristol";
    assert t[1..] == "Bristol";
    assert LeadingSpaces(t) == 1 by {
      assert LeadingSpaces(t[1..]) == 0;
    }
    assert TrailingSpaces("Bristol") == 0;
    assert "Bristol"[..7] == "Bristol";
  }

  lemma {:induction false} BristolLower()
    ensures Lower("Bristol") == "bristol"
  {
  }

  /** "UK, Bristol" splits at its comma into "UK" and " Bristol". */
  lemma {:induction false} SplitSecond(s: string)
    requires s == Second
    ensures Split(s, ',') == ["UK", " Bristol"]
  {
    var parts := ["UK", " Bristol"];
    SplitJoin(parts, ',');
    assert parts[1..] == [" Bristol"];
    assert Join(parts, ',') == s;
  }

  /** The city of the comma form is the second comma-separated part. */
  lemma {:induction false} CommaCityOfParts(s: string, parts: seq<string>)
    requires Split(s, ',') == parts && |parts| >= 2
    ensures CommaCity(s) == Some(Strip(Lower(Strip(parts[1]))))
  {
    assert ',' in s;
  }

  /** The comma form "UK, Bristol" names the city "bristol". */
  lemma {:induction false} SecondCity(s: string)
    requires s == Second
    ensures Strip(s) == s
    ensures CommaCity(s) == Some("bristol")
  {
    StripTrimmed(s);
    SplitSecond(s);
    CommaCityOfParts(s, ["UK", " Bristol"]);
    BristolCity();
  }

  /** A non-empty comma-form city listed under a region places the text there. */
  lemma {:induction false} CityRegion(s: string, city: string, region: string)
    requires CommaCity(s) == Some(city) && city != "" && RegionOfCity(city) == Some(region)
    ensures CommaCityRegion(s) == Some(region)
  {
  }

  /** A stripped part in the comma form with a listed city gets its region. */
  lemma {:induction false} CommaFormPart(s: string, region: string)
    requires Strip(s) == s && CommaCityRegion(s) == Some(region)
    ensures PartRegion(s) == region
  {
    CommaCityFirst(Some(s), region);
  }

  lemma {:induction false} SecondPartIsSouthWest(s: string)
    requires s == Second
    ensures PartRegion(s) == "South West"
  {
    SecondCity(s);
    BristolInSouthWest();
    BristolNotInLondon();
    BristolNotInSouthEast();
    SouthWestCity("bristol");
    CityRegion(s, "bristol", "South West");
    CommaFormPart(s, "South West");
  }

  /** As written, "London|UK, Bristol" may be placed in the South West; the
      first region found, London, is the evidently intended answer. */
  lemma {:induction false} LondonOrBristol(a: string, b: string)
    requires a == First && b == Second
    ensures AllowedRegion(Some(a + "|" + b), "South West")
    ensures FirstFoundRegion(Some(a + "|" + b)) == "London"
  {
    FirstPartIsLondon(a);
    SecondPartIsSouthWest(b);
    NoBars(a, b);
    LondonThenSouthWest(a, b);
  }

  lemma {:induction false} NoBars(a: string, b: string)
    requires a == First && b == Second
    ensures '|' !in a && '|' !in b
  {
  }

  lemma {:induction false} LondonThenSouthWest(a: string, b: string)
    requires '|' !in a && '|' !in b
    requires PartRegion(a) == "London" && PartRegion(b) == "South West"
    ensures AllowedRegion(Some(a + "|" + b), "South West")
    ensures FirstFoundRegion(Some(a + "|" + b)) == "London"
  {
    LaterPartMayWin(a, b);
  }
}
