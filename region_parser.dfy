/** The UK region classifier: a free-text address is mapped to one of twelve
    region names, or "Unknown", by (1) an exact match of the city in the
    "Region, City, Country" form, (2) a postcode-area lookup and (3) a
    first-match keyword scan, in that order. */
module RegionParser {
  import opened Seqs
  import opened Text
  import opened Frames

  // ---------------------------------------------------------------------------
  // The region table: region names with their keywords, in declaration order
  // ---------------------------------------------------------------------------

  const LondonKeywords: seq<string> :=
    ["london", "greater london", "ec1", "ec2", "ec3", "ec4", "wc1", "wc2", "n1", "nw1", "se1",
     "sw1", "e1", "w1"]

  const SouthEastKeywords: seq<string> :=
    ["surrey", "kent", "sussex", "berkshire", "hampshire", "oxfordshire", "buckinghamshire",
     "brighton", "reading", "slough", "farnham", "bicester", "bracknell", "upminster",
     "macclesfield", "kings hill", "warfield", "camberley", "cheshunt", "guildford", "crawley",
     "basingstoke", "eastbourne", "hastings", "canterbury", "maidstone", "ashford",
     "tunbridge wells"]

  const SouthWestKeywords: seq<string> :=
    ["bristol", "devon", "cornwall", "dorset", "somerset", "gloucestershire", "wiltshire", "bath",
     "exeter", "plymouth", "swindon", "bournemouth", "poole", "taunton", "gloucester", "cheltenham"]

  const EastOfEnglandKeywords: seq<string> :=
    ["essex", "hertfordshire", "bedfordshire", "cambridgeshire", "norfolk", "suffolk", "luton",
     "norwich", "cambridge", "hertford", "stevenage", "watford", "st albans", "chelmsford",
     "colchester", "ipswich", "peterborough"]

  const EastMidlandsKeywords: seq<string> :=
    ["leicestershire", "nottinghamshire", "derbyshire", "lincolnshire", "northamptonshire",
     "leicester", "nottingham", "derby", "northampton", "lincoln", "mansfield"]

  const WestMidlandsKeywords: seq<string> :=
    ["birmingham", "coventry", "wolverhampton", "warwickshire", "worcestershire", "staffordshire",
     "shropshire", "herefordshire", "dudley", "walsall", "solihull", "west bromwich", "stoke",
     "telford", "worcester", "hereford", "shrewsbury"]

  const YorkshireKeywords: seq<string> :=
    ["yorkshire", "leeds", "sheffield", "bradford", "hull", "york", "doncaster", "wakefield",
     "barnsley", "rotherham", "huddersfield", "halifax", "harrogate", "scarborough"]

  const NorthWestKeywords: seq<string> :=
    ["manchester", "liverpool", "lancashire", "cheshire", "merseyside", "cumbria", "preston",
     "bolton", "blackpool", "crewe", "widnes", "chester", "birkenhead", "knutsford", "neston",
     "warrington", "stockport", "oldham", "rochdale", "salford", "wigan", "blackburn", "burnley",
     "carlisle", "lancaster"]

  const NorthEastKeywords: seq<string> :=
    ["newcastle", "sunderland", "durham", "tyne and wear", "northumberland", "tees",
     "middlesbrough", "gateshead", "darlington", "hartlepool", "stockton"]

  const ScotlandKeywords: seq<string> :=
    ["edinburgh", "glasgow", "aberdeen", "dundee", "inverness", "scotland", "scottish", "stirling",
     "perth", "paisley"]

  const WalesKeywords: seq<string> :=
    ["cardiff", "swansea", "newport", "wales", "welsh", "cymru", "wrexham", "bangor", "aberystwyth"]

  const NorthernIrelandKeywords: seq<string> :=
    ["belfast", "northern ireland", "derry", "lisburn", "newry", "armagh"]

  /** The twelve region names, in the order of the table. */
  const RegionNames: seq<string> :=
    ["London", "South East", "South West", "East of England", "East Midlands", "West Midlands",
     "Yorkshire and the Humber", "North West", "North East", "Scotland", "Wales",
     "Northern Ireland"]

  /** The keyword lists of the regions, in the same order as the names. */
  const KeywordLists: seq<seq<string>> :=
    [LondonKeywords, SouthEastKeywords, SouthWestKeywords, EastOfEnglandKeywords,
     EastMidlandsKeywords, WestMidlandsKeywords, YorkshireKeywords, NorthWestKeywords,
     NorthEastKeywords, ScotlandKeywords, WalesKeywords, NorthernIrelandKeywords]


  // ---------------------------------------------------------------------------
  // The postcode-area table, in declaration order; some areas are listed twice
  // ---------------------------------------------------------------------------

  const LondonAreas: seq<(string, string)> :=
    [("E", "London"), ("EC", "London"), ("N", "London"), ("NW", "London"), ("SE", "London"),
     ("SW", "London"), ("W", "London"), ("WC", "London")]

  const SouthEastAreas: seq<(string, string)> :=
    [("BR", "South East"), ("CR", "South East"), ("DA", "South East"), ("GU", "South East"),
     ("KT", "South East"), ("ME", "South East"), ("RG", "South East"), ("RH", "South East"),
     ("SL", "South East"), ("SM", "South East"), ("TN", "South East"), ("TW", "South East"),
     ("OX", "South East"), ("HP", "South East"), ("MK", "South East"), ("BN", "South East"),
     ("PO", "South East"), ("SO", "South East"), ("SP", "South East")]

  const SouthWestAreas: seq<(string, string)> :=
    [("BA", "South West"), ("BS", "South West"), ("DT", "South West"), ("EX", "South West"),
     ("GL", "South West"), ("PL", "South West"), ("TA", "South West"), ("TQ", "South West"),
     ("TR", "South West"), ("SN", "South West")]

  const EastOfEnglandAreas: seq<(string, string)> :=
    [("CB", "East of England"), ("CM", "East of England"), ("CO", "East of England"),
     ("IP", "East of England"), ("LU", "East of England"), ("NR", "East of England"),
     ("PE", "East of England"), ("SG", "East of England"), ("SS", "East of England")]

  const EastMidlandsAreas: seq<(string, string)> :=
    [("DE", "East Midlands"), ("DN", "East Midlands"), ("LE", "East Midlands"),
     ("LN", "East Midlands"), ("NG", "East Midlands"), ("NN", "East Midlands")]

  const WestMidlandsAreas: seq<(string, string)> :=
    [("B", "West Midlands"), ("CV", "West Midlands"), ("DY", "West Midlands"),
     ("HR", "West Midlands"), ("ST", "West Midlands"), ("SY", "West Midlands"),
     ("TF", "West Midlands"), ("WR", "West Midlands"), ("WS", "West Midlands"),
     ("WV", "West Midlands")]

  const YorkshireAreas: seq<(string, string)> :=
    [("BD", "Yorkshire and the Humber"), ("DN", "Yorkshire and the Humber"),
     ("HD", "Yorkshire and the Humber"), ("HG", "Yorkshire and the Humber"),
     ("HU", "Yorkshire and the Humber"), ("HX", "Yorkshire and the Humber"),
     ("LS", "Yorkshire and the Humber"), ("S", "Yorkshire and the Humber"),
     ("WF", "Yorkshire and the Humber"), ("YO", "Yorkshire and the Humber")]

  const NorthWestAreas: seq<(string, string)> :=
    [("BL", "North West"), ("CA", "North West"), ("CH", "North West"), ("CW", "North West"),
     ("FY", "North West"), ("L", "North West"), ("LA", "North West"), ("M", "North West"),
     ("OL", "North West"), ("PR", "North West"), ("SK", "North West"), ("WA", "North West"),
     ("WN", "North West")]

  const NorthEastAreas: seq<(string, string)> :=
    [("DH", "North East"), ("DL", "North East"), ("NE", "North East"), ("SR", "North East"),
     ("TS", "North East")]

  const ScotlandAreas: seq<(string, string)> :=
    [("AB", "Scotland"), ("DD", "Scotland"), ("DG", "Scotland"), ("EH", "Scotland"),
     ("FK", "Scotland"), ("G", "Scotland"), ("HS", "Scotland"), ("IV", "Scotland"),
     ("KA", "Scotland"), ("KW", "Scotland"), ("KY", "Scotland"), ("ML", "Scotland"),
     ("PA", "Scotland"), ("PH", "Scotland"), ("TD", "Scotland"), ("ZE", "Scotland")]

  const WalesAreas: seq<(string, string)> :=
    [("CF", "Wales"), ("LD", "Wales"), ("LL", "Wales"), ("NP", "Wales"), ("SA", "Wales"),
     ("SY", "Wales")]

  const NorthernIrelandAreas: seq<(string, string)> :=
    [("BT", "Northern Ireland")]

  const PostcodeEntries: seq<(string, string)> :=
    LondonAreas + SouthEastAreas + SouthWestAreas + EastOfEnglandAreas + EastMidlandsAreas
    + WestMidlandsAreas + YorkshireAreas + NorthWestAreas + NorthEastAreas + ScotlandAreas
    + WalesAreas + NorthernIrelandAreas

  /** The dictionary the literal builds: a later binding of an area wins. */
  function PostcodeRegions(): map<string, string>
  {
    DictFromPairs(PostcodeEntries)
  }

  // ---------------------------------------------------------------------------
  // Facts about the postcode-area table
  // ---------------------------------------------------------------------------

  predicate IsUpperLetter(c: char) { 'A' <= c <= 'Z' }

  predicate IsDigit(c: char) { '0' <= c <= '9' }

  /** One or two upper-case letters: the form of every key of the table. */
  predicate IsAreaLetters(k: string)
  {
    1 <= |k| <= 2 && forall i :: 0 <= i < |k| ==> IsUpperLetter(k[i])
  }

  /** Every pair of `g` has a letters-only key and a region name as its value. */
  predicate WellFormedAreas(g: seq<(string, string)>)
  {
    forall i :: 0 <= i < |g| ==> IsAreaLetters(g[i].0) && g[i].1 in RegionNames
  }

  lemma {:induction false} WellFormedAppend(a: seq<(string, string)>, b: seq<(string, string)>)
    requires WellFormedAreas(a) && WellFormedAreas(b)
    ensures WellFormedAreas(a + b)
  {
    forall i | 0 <= i < |a + b| ensures IsAreaLetters((a + b)[i].0) && (a + b)[i].1 in RegionNames {
      if i >= |a| {
        assert (a + b)[i] == b[i - |a|];
      }
    }
  }

  lemma {:induction false} LondonAreasWellFormed() ensures WellFormedAreas(LondonAreas) {}

  lemma {:induction false} SouthEastAreasWellFormed() ensures WellFormedAreas(SouthEastAreas) {}

  lemma {:induction false} SouthWestAreasWellFormed() ensures WellFormedAreas(SouthWestAreas) {}

  lemma {:induction false} EastOfEnglandAreasWellFormed() ensures WellFormedAreas(EastOfEnglandAreas) {}

  lemma {:induction false} EastMidlandsAreasWellFormed() ensures WellFormedAreas(EastMidlandsAreas) {}

  lemma {:induction false} WestMidlandsAreasWellFormed() ensures WellFormedAreas(WestMidlandsAreas) {}

  lemma {:induction false} YorkshireAreasWellFormed() ensures WellFormedAreas(YorkshireAreas) {}

  lemma {:induction false} NorthWestAreasWellFormed() ensures WellFormedAreas(NorthWestAreas) {}

  lemma {:induction false} NorthEastAreasWellFormed() ensures WellFormedAreas(NorthEastAreas) {}

  lemma {:induction false} ScotlandAreasWellFormed() ensures WellFormedAreas(ScotlandAreas) {}

  lemma {:induction false} WalesAreasWellFormed() ensures WellFormedAreas(WalesAreas) {}

  lemma {:induction false} NorthernIrelandAreasWellFormed() ensures WellFormedAreas(NorthernIrelandAreas) {}

  lemma {:induction false} PostcodeEntriesWellFormed()
    ensures WellFormedAreas(PostcodeEntries)
  {
    LondonAreasWellFormed();
    SouthEastAreasWellFormed();
    SouthWestAreasWellFormed();
    EastOfEnglandAreasWellFormed();
    EastMidlandsAreasWellFormed();
    WestMidlandsAreasWellFormed();
    YorkshireAreasWellFormed();
    NorthWestAreasWellFormed();
    NorthEastAreasWellFormed();
    ScotlandAreasWellFormed();
    WalesAreasWellFormed();
    NorthernIrelandAreasWellFormed();
    WellFormedAppend(LondonAreas, SouthEastAreas);
    WellFormedAppend(LondonAreas + SouthEastAreas, SouthWestAreas);
    WellFormedAppend(LondonAreas + SouthEastAreas + SouthWestAreas, EastOfEnglandAreas);
    WellFormedAppend(LondonAreas + SouthEastAreas + SouthWestAreas + EastOfEnglandAreas, EastMidlandsAreas);
    WellFormedAppend(LondonAreas + SouthEastAreas + SouthWestAreas + EastOfEnglandAreas + EastMidlandsAreas, WestMidlandsAreas);
    WellFormedAppend(LondonAreas + SouthEastAreas + SouthWestAreas + EastOfEnglandAreas + EastMidlandsAreas + WestMidlandsAreas, YorkshireAreas);
    WellFormedAppend(LondonAreas + SouthEastAreas + SouthWestAreas + EastOfEnglandAreas + EastMidlandsAreas + WestMidlandsAreas + YorkshireAreas, NorthWestAreas);
    WellFormedAppend(LondonAreas + SouthEastAreas + SouthWestAreas + EastOfEnglandAreas + EastMidlandsAreas + WestMidlandsAreas + YorkshireAreas + NorthWestAreas, NorthEastAreas);
    WellFormedAppend(LondonAreas + SouthEastAreas + SouthWestAreas + EastOfEnglandAreas + EastMidlandsAreas + WestMidlandsAreas + YorkshireAreas + NorthWestAreas + NorthEastAreas, ScotlandAreas);
    WellFormedAppend(LondonAreas + SouthEastAreas + SouthWestAreas + EastOfEnglandAreas + EastMidlandsAreas + WestMidlandsAreas + YorkshireAreas + NorthWestAreas + NorthEastAreas + ScotlandAreas, WalesAreas);
    WellFormedAppend(LondonAreas + SouthEastAreas + SouthWestAreas + EastOfEnglandAreas + EastMidlandsAreas + WestMidlandsAreas + YorkshireAreas + NorthWestAreas + NorthEastAreas + ScotlandAreas + WalesAreas, NorthernIrelandAreas);
  }

  /** Every key of the postcode table is one or two letters, with no digit. */
  lemma {:induction false} PostcodeKeysAreLetters(k: string)
    requires k in PostcodeRegions()
    ensures IsAreaLetters(k)
  {
    PostcodeEntriesWellFormed();
    DictFromPairsKeys(PostcodeEntries, k);
  }

  /** Every value of the postcode table is one of the twelve region names. */
  lemma {:induction false} PostcodeValuesAreRegions(k: string)
    requires k in PostcodeRegions()
    ensures PostcodeRegions()[k] in RegionNames
  {
    PostcodeEntriesWellFormed();
    DictFromPairsValue(PostcodeEntries, k);
    var i :| 0 <= i < |PostcodeEntries| && PostcodeEntries[i] == (k, PostcodeRegions()[k]);
  }

  /** No pair of `g` binds `k`. */
  predicate LacksKey(g: seq<(string, string)>, k: string)
  {
    forall j :: 0 <= j < |g| ==> g[j].0 != k
  }

  lemma {:induction false} LacksKeyAppend(a: seq<(string, string)>, b: seq<(string, string)>, k: string)
    requires LacksKey(a, k) && LacksKey(b, k)
    ensures LacksKey(a + b, k)
  {
    forall j | 0 <= j < |a + b| ensures (a + b)[j].0 != k {
      if j >= |a| {
        assert (a + b)[j] == b[j - |a|];
      }
    }
  }

  /** The value of a key is its binding in `g` when no later pair rebinds it. */
  lemma {:induction false} LookupLastBinding(pre: seq<(string, string)>, g: seq<(string, string)>,
                                             post: seq<(string, string)>, i: nat)
    requires i < |g|
    requires forall j :: i < j < |g| ==> g[j].0 != g[i].0
    requires LacksKey(post, g[i].0)
    ensures g[i].0 in DictFromPairs(pre + g + post)
    ensures DictFromPairs(pre + g + post)[g[i].0] == g[i].1
  {
    DictFromPairsAppend(pre + g, post);
    DictFromPairsAppend(pre, g);
    DictFromPairsLastWins(g, i);
    DictFromPairsKeys(post, g[i].0);
  }

  lemma {:induction false} LaterAreasLackDN()
    ensures LacksKey(NorthWestAreas + NorthEastAreas + ScotlandAreas + WalesAreas + NorthernIrelandAreas, "DN")
  {
    assert LacksKey(NorthWestAreas, "DN");
    assert LacksKey(NorthEastAreas, "DN");
    assert LacksKey(ScotlandAreas, "DN");
    assert LacksKey(WalesAreas, "DN");
    assert LacksKey(NorthernIrelandAreas, "DN");
    LacksKeyAppend(NorthWestAreas, NorthEastAreas, "DN");
    LacksKeyAppend(NorthWestAreas + NorthEastAreas, ScotlandAreas, "DN");
    LacksKeyAppend(NorthWestAreas + NorthEastAreas + ScotlandAreas, WalesAreas, "DN");
    LacksKeyAppend(NorthWestAreas + NorthEastAreas + ScotlandAreas + WalesAreas, NorthernIrelandAreas, "DN");
  }

  /** "DN" is listed under the East Midlands and again under Yorkshire and the
      Humber; the later entry wins. */
  lemma {:induction false} DNLastWins()
    ensures EastMidlandsAreas[1] == ("DN", "East Midlands")
    ensures "DN" in PostcodeRegions() && PostcodeRegions()["DN"] == "Yorkshire and the Humber"
  {
    var pre := LondonAreas + SouthEastAreas + SouthWestAreas + EastOfEnglandAreas
               + EastMidlandsAreas + WestMidlandsAreas;
    var post := NorthWestAreas + NorthEastAreas + ScotlandAreas + WalesAreas + NorthernIrelandAreas;
    LaterAreasLackDN();
    assert PostcodeEntries == pre + YorkshireAreas + post;
    LookupLastBinding(pre, YorkshireAreas, post, 1);
  }

  /** "SY" is listed under the West Midlands and again under Wales; the later
      entry wins. */
  lemma {:induction false} SYLastWins()
    ensures WestMidlandsAreas[5] == ("SY", "West Midlands")
    ensures "SY" in PostcodeRegions() && PostcodeRegions()["SY"] == "Wales"
  {
    var pre := LondonAreas + SouthEastAreas + SouthWestAreas + EastOfEnglandAreas
               + EastMidlandsAreas + WestMidlandsAreas + YorkshireAreas + NorthWestAreas
               + NorthEastAreas + ScotlandAreas;
    assert LacksKey(NorthernIrelandAreas, "SY");
    assert PostcodeEntries == pre + WalesAreas + NorthernIrelandAreas;
    LookupLastBinding(pre, WalesAreas, NorthernIrelandAreas, 5);
  }

  // ---------------------------------------------------------------------------
  // The postcode pattern \b([A-Z]{1,2}\d{1,2}[A-Z]?)\s*\d[A-Z]{2}\b
  // ---------------------------------------------------------------------------

  /** `\w`: a word character. */
  predicate IsWordChar(c: char)
  {
    IsUpperLetter(c) || ('a' <= c <= 'z') || IsDigit(c) || c == '_'
  }

  /** `\b` at position `p`: exactly one of the characters around `p` is a word
      character. */
  predicate WordBoundaryAt(u: string, p: nat)
    requires p <= |u|
  {
    (p > 0 && IsWordChar(u[p - 1])) != (p < |u| && IsWordChar(u[p]))
  }

  /** The whitespace run starting at `p`, which is what `\s*` takes: a shorter
      run would leave a whitespace character where the pattern needs a digit. */
  function SpaceRun(u: string, p: nat): (n: nat)
    requires p <= |u|
    ensures p + n <= |u|
    ensures forall i :: p <= i < p + n ==> IsSpace(u[i])
    ensures p + n < |u| ==> !IsSpace(u[p + n])
    decreases |u| - p
  {
    if p < |u| && IsSpace(u[p]) then 1 + SpaceRun(u, p + 1) else 0
  }

  /** One way of matching the group `([A-Z]{1,2}\d{1,2}[A-Z]?)`: how many
      letters, digits and trailing letters it takes. */
  datatype Shape = Shape(letters: nat, digits: nat, suffix: nat)

  /** The shapes in the order the backtracking matcher tries them: each greedy
      quantifier tries its longer alternative first, and the latest choice is
      revisited first. */
  const Shapes: seq<Shape> :=
    [Shape(2, 2, 1), Shape(2, 2, 0), Shape(2, 1, 1), Shape(2, 1, 0),
     Shape(1, 2, 1), Shape(1, 2, 0), Shape(1, 1, 1), Shape(1, 1, 0)]

  /** The group takes one or two letters, one or two digits and at most one
      trailing letter. */
  predicate ValidShape(sh: Shape)
  {
    1 <= sh.letters <= 2 && 1 <= sh.digits <= 2 && sh.suffix <= 1
  }

  /** Every shape the matcher tries is one the group allows. */
  lemma {:induction false} ShapesValid(i: nat)
    requires i < |Shapes|
    ensures ValidShape(Shapes[i])
  {
  }

  /** The whole pattern matches at `p` of `u` with its group taking shape `sh`. */
  predicate ShapeMatches(u: string, p: nat, sh: Shape)
  {
    var a := p + sh.letters;
    var b := a + sh.digits;
    var g := b + sh.suffix;
    g <= |u| && WordBoundaryAt(u, p)
    && (forall i :: p <= i < a ==> IsUpperLetter(u[i]))
    && (forall i :: a <= i < b ==> IsDigit(u[i]))
    && (forall i :: b <= i < g ==> IsUpperLetter(u[i]))
    && var q := g + SpaceRun(u, g);
    q + 3 <= |u| && IsDigit(u[q]) && IsUpperLetter(u[q + 1]) && IsUpperLetter(u[q + 2])
    && WordBoundaryAt(u, q + 3)
  }

  /** What any match at `p` needs: a word boundary, a letter at `p` and a digit
      after the group's letters. */
  lemma {:induction false} ShapeMatchStart(u: string, p: nat, sh: Shape)
    requires ValidShape(sh) && ShapeMatches(u, p, sh)
    ensures WordBoundaryAt(u, p) && IsUpperLetter(u[p])
    ensures p + sh.letters < |u| && IsDigit(u[p + sh.letters])
    ensures sh.letters == 1 || sh.letters == 2
  {
  }

  /** Which shapes match at `p`, in matcher order. */
  function ShapeFlags(u: string, p: nat): (flags: seq<bool>)
    ensures |flags| == |Shapes|
    ensures forall i :: 0 <= i < |Shapes| ==> flags[i] == ShapeMatches(u, p, Shapes[i])
  {
    seq(|Shapes|, i requires 0 <= i < |Shapes| => ShapeMatches(u, p, Shapes[i]))
  }

  /** The shape of the match at `p`: the first shape, in matcher order, that
      matches there. */
  function MatchAt(u: string, p: nat): (r: Option<Shape>)
    ensures r.Some? ==> r.value in Shapes && ValidShape(r.value) && ShapeMatches(u, p, r.value)
    ensures r.None? ==> forall i :: 0 <= i < |Shapes| ==> !ShapeMatches(u, p, Shapes[i])
  {
    var flags := ShapeFlags(u, p);
    match FirstTrue(flags, 0)
    case None => None
    case Some(i) => ShapesValid(i); Some(Shapes[i])
  }

  /** The first shape, in pattern order, that matches at `p` is the match. */
  lemma {:induction false} MatchAtFirst(u: string, p: nat, i: nat)
    requires i < |Shapes| && ShapeMatches(u, p, Shapes[i])
    requires forall j :: 0 <= j < i ==> !ShapeMatches(u, p, Shapes[j])
    ensures MatchAt(u, p) == Some(Shapes[i])
  {
    var flags := ShapeFlags(u, p);
    FirstTrueAt(flags, 0, i);
  }

  /** `re.search` from `p`: the leftmost position where the pattern matches,
      with the shape of that match. */
  function SearchFrom(u: string, p: nat): (r: Option<(nat, Shape)>)
    requires p <= |u|
    ensures r.Some? ==> p <= r.value.0 <= |u| && MatchAt(u, r.value.0) == Some(r.value.1)
    decreases |u| - p
  {
    match MatchAt(u, p)
    case Some(sh) => Some((p, sh))
    case None => if p == |u| then None else SearchFrom(u, p + 1)
  }

  /** The search finds the leftmost match: nothing matches before the
      position it returns. */
  lemma {:induction false} SearchFromLeftmost(u: string, p: nat)
    requires p <= |u| && SearchFrom(u, p).Some?
    ensures forall q :: p <= q < SearchFrom(u, p).value.0 ==> MatchAt(u, q).None?
    decreases |u| - p
  {
    if MatchAt(u, p).None? {
      SearchFromLeftmost(u, p + 1);
    }
  }

  /** When the search fails, the pattern matches nowhere from `p` on. */
  lemma {:induction false} SearchFromNoMatch(u: string, p: nat, q: nat)
    requires p <= q <= |u| && SearchFrom(u, p).None?
    ensures MatchAt(u, q).None?
    decreases q - p
  {
    if q > p {
      SearchFromNoMatch(u, p + 1, q);
    }
  }

  /** `re.sub(r'[A-Z]$', '', g)`: one trailing upper-case letter is removed. */
  function DropTrailingLetter(g: string): string
  {
    if g != [] && IsUpperLetter(g[|g| - 1]) then g[..|g| - 1] else g
  }

  /** Number of upper-case letters at the start of `a`. */
  function LeadingLetters(a: string): (n: nat)
    ensures n <= |a|
    ensures forall i :: 0 <= i < n ==> IsUpperLetter(a[i])
    ensures n < |a| ==> !IsUpperLetter(a[n])
  {
    if a != [] && IsUpperLetter(a[0]) then 1 + LeadingLetters(a[1..]) else 0
  }

  /** A postcode area as extracted: one or two letters then one or two digits. */
  predicate IsPostcodeArea(a: string)
  {
    var n := LeadingLetters(a);
    1 <= n <= 2 && n + 1 <= |a| <= n + 2 && forall i :: n <= i < |a| ==> IsDigit(a[i])
  }

  /** What the area of a match at `p` is: the group less its trailing letter,
      which is the group's letters and digits. */
  function AreaOfMatch(u: string, p: nat, sh: Shape): (area: string)
    requires ValidShape(sh) && ShapeMatches(u, p, sh)
    ensures IsPostcodeArea(area) && IsDigit(area[|area| - 1])
    ensures OccursAt(area, u, p)
  {
    var g := u[p..p + sh.letters + sh.digits + sh.suffix];
    var area := DropTrailingLetter(g);
    assert area == u[p..p + sh.letters + sh.digits];
    assert LeadingLetters(area) == sh.letters by {
      assert !IsUpperLetter(area[sh.letters]);
    }
    area
  }

  /** The area of a match is the group's letters and digits. */
  lemma {:induction false} AreaOfMatchSlice(u: string, p: nat, sh: Shape)
    requires ValidShape(sh) && ShapeMatches(u, p, sh)
    ensures p + sh.letters + sh.digits <= |u|
    ensures AreaOfMatch(u, p, sh) == u[p..p + sh.letters + sh.digits]
  {
  }

  /** The postcode area of an address: the group of the leftmost match in the
      upper-cased address, less one trailing letter. A missing or empty address
      has none. */
  function ExtractPostcodeArea(address: Option<string>): (r: Option<string>)
    ensures (address.None? || address.value == "") ==> r.None?
    ensures r.Some? ==> IsPostcodeArea(r.value) && IsDigit(r.value[|r.value| - 1])
    ensures r.Some? ==> exists p :: OccursAt(r.value, Upper(address.value), p)
  {
    if address.None? || address.value == "" then None
    else
      var u := Upper(address.value);
      match SearchFrom(u, 0)
      case None => None
      case Some((p, sh)) => Some(AreaOfMatch(u, p, sh))
  }

  /** The area extracted is that of the leftmost match. */
  lemma {:induction false} ExtractPostcodeAreaOfMatch(address: string, p: nat, sh: Shape)
    requires address != [] && SearchFrom(Upper(address), 0) == Some((p, sh))
    ensures ValidShape(sh) && ShapeMatches(Upper(address), p, sh)
    ensures ExtractPostcodeArea(Some(address)) == Some(AreaOfMatch(Upper(address), p, sh))
  {
  }

  /** No extracted area is a key of the postcode table: the area ends in a
      digit, and every key is letters only. */
  lemma {:induction false} PostcodeAreaNeverInTable(address: Option<string>)
    ensures ExtractPostcodeArea(address).Some? ==>
              ExtractPostcodeArea(address).value !in PostcodeRegions()
  {
    var r := ExtractPostcodeArea(address);
    if r.Some? && r.value in PostcodeRegions() {
      PostcodeKeysAreLetters(r.value);
    }
  }

  // ---------------------------------------------------------------------------
  // The classifier
  // ---------------------------------------------------------------------------

  /** The first region, in table order, whose keyword list contains `city`
      exactly (list membership, not substring). */
  function RegionOfCity(city: string): (r: Option<string>)
    ensures r.None? <==> forall i :: 0 <= i < |KeywordLists| ==> city !in KeywordLists[i]
    ensures r.Some? ==> exists i :: 0 <= i < |KeywordLists| && r.value == RegionNames[i]
                                    && city in KeywordLists[i]
                                    && forall j :: 0 <= j < i ==> city !in KeywordLists[j]
  {
    match FirstIndex(KeywordLists, (keywords: seq<string>) => city in keywords)
    case None => None
    case Some(i) => Some(RegionNames[i])
  }

  /** The city of the "Region, City, Country" form: the second comma-separated
      part, stripped and lower-cased; there is none without a comma. */
  function CommaCity(s: string): (city: Option<string>)
    ensures city.Some? <==> ',' in s
  {
    if ',' !in s then None
    else
      // Every part is stripped, but only the length and the second part are used.
      var parts := Split(s, ',');
      if |parts| < 2 then None
      else Some(Strip(Lower(Strip(parts[1]))))
  }

  /** The region of the city in the comma form, if its city is non-empty and
      listed as a keyword. */
  function CommaCityRegion(s: string): (r: Option<string>)
    ensures r.Some? ==> ',' in s && r.value in RegionNames
  {
    match CommaCity(s)
    case None => None
    case Some(city) => if city == "" then None else RegionOfCity(city)
  }

  /** Some keyword of the list occurs in `text`. */
  predicate AnyKeywordIn(keywords: seq<string>, text: string)
  {
    exists k :: k in keywords && IsSubstring(k, text)
  }

  /** The keyword scan: the first region, in table order, one of whose
      keywords occurs in `text`. */
  function KeywordRegion(text: string): (r: Option<string>)
    ensures r.None? <==> forall i :: 0 <= i < |KeywordLists| ==> !AnyKeywordIn(KeywordLists[i], text)
    ensures r.Some? ==> exists i :: 0 <= i < |KeywordLists| && r.value == RegionNames[i]
                                    && AnyKeywordIn(KeywordLists[i], text)
                                    && forall j :: 0 <= j < i ==> !AnyKeywordIn(KeywordLists[j], text)
  {
    match FirstIndex(KeywordLists, (keywords: seq<string>) => AnyKeywordIn(keywords, text))
    case None => None
    case Some(i) => Some(RegionNames[i])
  }

  /** `extract_region_from_address`: the comma-form city, else the postcode
      area, else the keyword scan of the stripped, lower-cased address, else
      "Unknown". The result is always a region name or "Unknown". */
  function ExtractRegionFromAddress(address: Option<string>): (r: string)
    ensures r == Unknown || r in RegionNames
    ensures (address.None? || address.value == "") ==> r == Unknown
  {
    if address.None? || address.value == "" then Unknown
    else
      var s := Strip(address.value);
      match CommaCityRegion(s)
      case Some(region) => region
      case None =>
        var area := ExtractPostcodeArea(address);
        if area.Some? && area.value != "" && area.value in PostcodeRegions() then
          PostcodeValuesAreRegions(area.value);
          PostcodeRegions()[area.value]
        else
          match KeywordRegion(Lower(s))
          case Some(region) => region
          case None => Unknown
  }

  /** The classifier with the postcode stage removed: the comma-form city,
      else the keyword scan. */
  function RegionByCityOrKeyword(address: Option<string>): string
  {
    if address.None? || address.value == "" then Unknown
    else
      var s := Strip(address.value);
      match CommaCityRegion(s)
      case Some(region) => region
      case None =>
        match KeywordRegion(Lower(s))
        case Some(region) => region
        case None => Unknown
  }

  /** The postcode stage never decides: the classifier gives the same answer
      as the comma check followed by the keyword scan alone. */
  lemma {:induction false} PostcodeStageNeverDecides(address: Option<string>)
    ensures ExtractRegionFromAddress(address) == RegionByCityOrKeyword(address)
  {
    PostcodeAreaNeverInTable(address);
  }

  /** A comma-form city that is a keyword decides the region before any other
      stage. */
  lemma {:induction false} CommaCityFirst(address: Option<string>, region: string)
    requires address.Some? && CommaCityRegion(Strip(address.value)) == Some(region)
    ensures ExtractRegionFromAddress(address) == region
  {
  }

  /** London is first in the table: an address the comma check leaves open and
      that contains a London keyword, such as "e1" or "w1", is London. */
  lemma {:induction false} LondonKeywordWins(address: Option<string>)
    requires address.Some? && CommaCityRegion(Strip(address.value)).None?
    requires AnyKeywordIn(LondonKeywords, Lower(Strip(address.value)))
    ensures ExtractRegionFromAddress(address) == "London"
  {
    PostcodeAreaNeverInTable(address);
    var text := Lower(Strip(address.value));
    assert AnyKeywordIn(KeywordLists[0], text);
  }

  // ---------------------------------------------------------------------------
  // The region column and its summary
  // ---------------------------------------------------------------------------

  /** `add_region_column`: a copy of the table with `uk_region` classified from
      the `regions` column of each row; nothing else changes. */
  function AddRegionColumn(t: Table): (r: Table)
    requires RegionsCol in t.columns
    ensures r.columns == WithColumn(t.columns, UkRegionCol)
    ensures |r.rows| == |t.rows|
    ensures forall i :: 0 <= i < |t.rows| ==>
              r.rows[i] == t.rows[i].(ukRegion := ExtractRegionFromAddress(t.rows[i].regions))
    ensures forall i :: 0 <= i < |r.rows| ==> r.rows[i].ukRegion == Unknown || r.rows[i].ukRegion in RegionNames
  {
    Table(WithColumn(t.columns, UkRegionCol),
          Map(t.rows, (row: Row) => row.(ukRegion := ExtractRegionFromAddress(row.regions))))
  }

  /** The `uk_region` value of every row, in order. */
  function RegionLabels(rows: seq<Row>): seq<string>
  {
    Map(rows, (row: Row) => row.ukRegion)
  }

  /** `get_region_summary`: each region label with the number of rows that
      carry it, most frequent first. */
  function GetRegionSummary(t: Table): (summary: seq<(string, int)>)
    requires RegionsCol in t.columns
  {
    ValueCounts(RegionLabels(AddRegionColumn(t).rows))
  }

  /** Every region label of the classified rows is in the summary, with its
      row count, and the counts add up to the number of rows. */
  lemma {:induction false} RegionSummaryCounts(t: Table)
    requires RegionsCol in t.columns
    ensures var labels := RegionLabels(AddRegionColumn(t).rows);
            var summary := GetRegionSummary(t);
            (forall x :: x in labels <==> exists i :: 0 <= i < |summary| && summary[i].0 == x)
            && (forall i :: 0 <= i < |summary| ==> summary[i].1 == Count(labels, summary[i].0))
    ensures SumOf(GetRegionSummary(t), (e: (string, int)) => e.1) == |t.rows|
  {
    var labels := RegionLabels(AddRegionColumn(t).rows);
    assert GetRegionSummary(t) == ValueCounts(labels);
    assert |labels| == |t.rows|;
    ValueCountsTotal(labels);
  }

  // ---------------------------------------------------------------------------
  // The postcode stage as evidently intended
  // ---------------------------------------------------------------------------

  /** The letters of an extracted area, which is what the table is keyed by:
      "SW1" gives "SW" and "M1" gives "M". */
  function AreaLetters(area: string): (k: string)
    ensures IsPostcodeArea(area) ==> IsAreaLetters(k) && k <= area
  {
    area[..LeadingLetters(area)]
  }

  /** The classifier with the postcode stage looking up the letters of the
      area instead of the whole area. */
  function ExtractRegionCorrected(address: Option<string>): (r: string)
    ensures r == Unknown || r in RegionNames
    ensures (address.None? || address.value == "") ==> r == Unknown
  {
    if address.None? || address.value == "" then Unknown
    else
      var s := Strip(address.value);
      match CommaCityRegion(s)
      case Some(region) => region
      case None =>
        var area := ExtractPostcodeArea(address);
        if area.Some? && AreaLetters(area.value) in PostcodeRegions() then
          PostcodeValuesAreRegions(AreaLetters(area.value));
          PostcodeRegions()[AreaLetters(area.value)]
        else
          match KeywordRegion(Lower(s))
          case Some(region) => region
          case None => Unknown
  }

  /** With the correction, an address whose comma form names no known city
      and whose postcode area is in the table is classified by that area,
      whatever keywords it contains. */
  lemma {:induction false} CorrectedUsesPostcodeArea(address: Option<string>, area: string)
    requires address.Some? && CommaCityRegion(Strip(address.value)).None?
    requires ExtractPostcodeArea(address) == Some(area)
    requires AreaLetters(area) in PostcodeRegions()
    ensures ExtractRegionCorrected(address) == PostcodeRegions()[AreaLetters(area)]
  {
  }

  /** The correction changes nothing when the area's letters are not in the
      table. */
  lemma {:induction false} CorrectedAgreesOtherwise(address: Option<string>)
    requires ExtractPostcodeArea(address).None? ||
             AreaLetters(ExtractPostcodeArea(address).value) !in PostcodeRegions()
    ensures ExtractRegionCorrected(address) == ExtractRegionFromAddress(address)
  {
    PostcodeAreaNeverInTable(address);
  }
}
