/** The secrets converter: a service-account JSON object written as a TOML
    table `[gcp_service_account]`, one `key = "value"` line per entry, with
    string values escaped for TOML basic strings (TOML v1.0.0, section
    "String"). */
module TomlSecrets {

  import opened Seqs

  // ---------------------------------------------------------------------------
  // Python's str.replace for a one-character pattern
  // ---------------------------------------------------------------------------

  /** Every occurrence of `c` in `s` replaced by `r`. */
  function Replace(s: string, c: char, r: string): (t: string)
    ensures c !in r ==> c !in t
    ensures forall x :: x in t ==> x in s || x in r
  {
    if s == [] then [] else (if s[0] == c then r else [s[0]]) + Replace(s[1..], c, r)
  }

  lemma {:induction false} ReplaceAppend(a: string, b: string, c: char, r: string)
    ensures Replace(a + b, c, r) == Replace(a, c, r) + Replace(b, c, r)
    decreases |a|
  {
    if a != [] {
      assert (a + b)[1..] == a[1..] + b;
      ReplaceAppend(a[1..], b, c, r);
    } else {
      assert a + b == b;
    }
  }

  // ---------------------------------------------------------------------------
  // The escape as written: backslash, then quote, then newline
  // ---------------------------------------------------------------------------

  /** `value.replace('\\', '\\\\').replace('"', '\\"').replace('\n', '\\n')`. */
  function Escape(s: string): string
  {
    Replace(Replace(Replace(s, '\\', "\\\\"), '"', "\\\""), '\n', "\\n")
  }

  /** The escape of one character. */
  function EscapeChar(c: char): string
  {
    if c == '\\' then "\\\\"
    else if c == '"' then "\\\""
    else if c == '\n' then "\\n"
    else [c]
  }

  /** Each character escaped on its own, in order. */
  function EscapeEach(s: string): string
  {
    if s == [] then [] else EscapeChar(s[0]) + EscapeEach(s[1..])
  }

  /** The chain of replacements escapes each character independently:
      doubling backslashes first means the later replacements never touch
      a backslash they did not insert themselves. */
  lemma {:induction false} EscapeIsPerChar(s: string)
    ensures Escape(s) == EscapeEach(s)
    decreases |s|
  {
    if s != [] {
      var c, rest := s[0], s[1..];
      assert s == [c] + rest;
      EscapeIsPerChar(rest);
      ReplaceAppend([c], rest, '\\', "\\\\");
      var a1, b1 := Replace([c], '\\', "\\\\"), Replace(rest, '\\', "\\\\");
      ReplaceAppend(a1, b1, '"', "\\\"");
      var a2, b2 := Replace(a1, '"', "\\\""), Replace(b1, '"', "\\\"");
      ReplaceAppend(a2, b2, '\n', "\\n");
      EscapeCharChain(c);
    }
  }

  lemma {:induction false} EscapeCharChain(c: char)
    ensures Replace(Replace(Replace([c], '\\', "\\\\"), '"', "\\\""), '\n', "\\n") == EscapeChar(c)
  {
    assert [c][1..] == [];
    if c == '\\' {
      var t := "\\\\";
      assert Replace([c], '\\', "\\\\") == t;
      assert t[1..][1..] == [];
      assert Replace(t, '"', "\\\"") == t;
      assert Replace(t, '\n', "\\n") == t;
    } else if c == '"' {
      var t := "\\\"";
      assert Replace([c], '\\', "\\\\") == [c];
      assert Replace([c], '"', "\\\"") == t;
      assert t[1..][1..] == [];
      assert Replace(t, '\n', "\\n") == t;
    } else if c == '\n' {
      assert Replace([c], '\\', "\\\\") == [c];
      assert Replace([c], '"', "\\\"") == [c];
    } else {
      assert Replace([c], '\\', "\\\\") == [c];
      assert Replace([c], '"', "\\\"") == [c];
    }
  }

  /** The escaped text holds no raw newline, so each entry stays on one line. */
  lemma {:induction false} EscapeHasNoNewline(s: string)
    ensures '\n' !in Escape(s)
  {
  }

  /** Only backslash, quote and newline are rewritten: a text without them
      is left unchanged. */
  lemma {:induction false} EscapeKeepsOthers(s: string)
    requires '\\' !in s && '"' !in s && '\n' !in s
    ensures Escape(s) == s
    decreases |s|
  {
    EscapeIsPerChar(s);
    EscapeEachKeeps(s);
  }

  lemma {:induction false} EscapeEachKeeps(s: string)
    requires '\\' !in s && '"' !in s && '\n' !in s
    ensures EscapeEach(s) == s
    decreases |s|
  {
    if s != [] {
      assert s[0] in s;
      assert forall x :: x in s[1..] ==> x in s;
      EscapeEachKeeps(s[1..]);
    }
  }

  /** The number of consecutive backslashes just before position `i` of `t`. */
  function BackslashRun(t: string, i: nat): (n: nat)
    requires i <= |t|
    ensures n <= i
  {
    if i == 0 || t[i - 1] != '\\' then 0 else 1 + BackslashRun(t, i - 1)
  }

  /** Every quote of `t` is escaped: an odd run of backslashes stands before it. */
  predicate QuotesEscaped(t: string)
  {
    forall i :: 0 <= i < |t| && t[i] == '"' ==> BackslashRun(t, i) % 2 == 1
  }

  lemma {:induction false} BackslashRunPrefix(a: string, b: string, i: nat)
    requires i <= |a|
    ensures BackslashRun(a + b, i) == BackslashRun(a, i)
    decreases i
  {
    if i > 0 {
      assert (a + b)[i - 1] == a[i - 1];
      BackslashRunPrefix(a, b, i - 1);
    }
  }

  lemma {:induction false} EscapeEachSnoc(s: string, c: char)
    ensures EscapeEach(s + [c]) == EscapeEach(s) + EscapeChar(c)
    decreases |s|
  {
    if s == [] {
      assert s + [c] == [c];
      assert [c][1..] == [];
    } else {
      assert (s + [c])[0] == s[0];
      assert (s + [c])[1..] == s[1..] + [c];
      EscapeEachSnoc(s[1..], c);
    }
  }

  /** Appending the escape of one character to text whose quotes are escaped
      and which ends in an even run of backslashes keeps both facts. */
  lemma {:induction false} EscapeCharQuotes(a: string, c: char)
    requires QuotesEscaped(a) && BackslashRun(a, |a|) % 2 == 0
    ensures QuotesEscaped(a + EscapeChar(c))
    ensures BackslashRun(a + EscapeChar(c), |a + EscapeChar(c)|) % 2 == 0
  {
    var e := EscapeChar(c);
    var t := a + e;
    BackslashRunPrefix(a, e, |a|);
    forall i | 0 <= i < |t| && t[i] == '"' ensures BackslashRun(t, i) % 2 == 1 {
      if i < |a| {
        BackslashRunPrefix(a, e, i);
        assert a[i] == t[i];
      } else {
        assert c == '"' && i == |a| + 1;
        assert BackslashRun(t, i) == 1 + BackslashRun(t, |a|);
      }
    }
    if c == '\\' {
      assert BackslashRun(t, |t|) == 2 + BackslashRun(t, |a|);
    } else if c == '"' {
      assert t[|t| - 1] == '"';
    } else if c == '\n' {
      assert t[|t| - 1] == 'n';
    } else {
      assert t[|t| - 1] == c;
    }
  }

  /** The escaped text has every quote escaped and ends in an even run of
      backslashes. */
  lemma {:induction false} EscapeEachQuotes(s: string)
    ensures QuotesEscaped(EscapeEach(s))
    ensures BackslashRun(EscapeEach(s), |EscapeEach(s)|) % 2 == 0
    decreases |s|
  {
    if s != [] {
      var front, c := s[..|s| - 1], s[|s| - 1];
      assert s == front + [c];
      EscapeEachQuotes(front);
      EscapeEachSnoc(front, c);
      EscapeCharQuotes(EscapeEach(front), c);
    }
  }

  /** In the escaped text every quote is preceded by an odd run of
      backslashes, so none of them ends the quoted value early. */
  lemma {:induction false} EscapeQuotesEscaped(s: string)
    ensures QuotesEscaped(Escape(s))
  {
    EscapeIsPerChar(s);
    EscapeEachQuotes(s);
  }

  // ---------------------------------------------------------------------------
  // Reading a TOML basic string back
  // ---------------------------------------------------------------------------

  /** A control character: U+0000 to U+001F, and U+007F. */
  predicate IsControl(c: char)
  {
    c as int < 0x20 || c as int == 0x7F
  }

  /** A character a basic string may hold unescaped: not a quote, not a
      backslash, and no control character other than tab. */
  predicate RawAllowed(c: char)
  {
    c != '"' && c != '\\' && (c == '\t' || !IsControl(c))
  }

  /** The character a two-character escape `\e` stands for. */
  function ShortEscape(e: char): Option<char>
  {
    if e == 'b' then Some(0x08 as char)
    else if e == 't' then Some('\t')
    else if e == 'n' then Some('\n')
    else if e == 'f' then Some(0x0C as char)
    else if e == 'r' then Some('\r')
    else if e == '"' then Some('"')
    else if e == '\\' then Some('\\')
    else None
  }

  predicate IsHexDigit(c: char)
  {
    '0' <= c <= '9' || 'A' <= c <= 'F' || 'a' <= c <= 'f'
  }

  function HexValue(c: char): (v: nat)
    requires IsHexDigit(c)
    ensures v < 16
  {
    if '0' <= c <= '9' then c as int - '0' as int
    else if 'A' <= c <= 'F' then c as int - 'A' as int + 10
    else c as int - 'a' as int + 10
  }

  /** The value of four hex digits. */
  function Hex4(t: string): (v: nat)
    requires |t| == 4 && forall i :: 0 <= i < 4 ==> IsHexDigit(t[i])
    ensures v < 0x10000
  {
    ((HexValue(t[0]) * 16 + HexValue(t[1])) * 16 + HexValue(t[2])) * 16 + HexValue(t[3])
  }

  /** The content of a basic string (the text between its quotes) read back:
      the escapes `\b \t \n \f \r \" \\` and `\uXXXX` are decoded; a raw
      quote, backslash or control character other than tab makes it
      invalid. */
  function Unescape(t: string): (r: Option<string>)
    decreases |t|
  {
    if t == [] then Some([])
    else if t[0] == '\\' then
      if |t| < 2 then None
      else if t[1] == 'u' then
        if |t| < 6 || !(forall i :: 2 <= i < 6 ==> IsHexDigit(t[i])) then None
        else
          var v := Hex4(t[2..6]);
          if 0xD800 <= v < 0xE000 then None
          else match Unescape(t[6..])
            case None => None
            case Some(rest) => Some([v as char] + rest)
      else match ShortEscape(t[1])
        case None => None
        case Some(c) =>
          match Unescape(t[2..])
          case None => None
          case Some(rest) => Some([c] + rest)
    else if !RawAllowed(t[0]) then None
    else match Unescape(t[1..])
      case None => None
      case Some(rest) => Some([t[0]] + rest)
  }

  /** Decoding one escaped character in front of text that decodes. */
  lemma {:induction false} UnescapeCons(c: char, t: string, rest: string)
    requires Unescape(t) == Some(rest)
    requires c == '\\' || c == '"' || c == '\n' || RawAllowed(c)
    ensures Unescape(EscapeChar(c) + t) == Some([c] + rest)
  {
    var e := EscapeChar(c) + t;
    if c == '\\' || c == '"' || c == '\n' {
      assert e[2..] == t;
    } else {
      assert e[1..] == t;
    }
  }

  /** A value without control characters other than tab and newline survives
      the escape: reading the escaped text back gives the value. */
  lemma {:induction false} EscapeRoundTrip(s: string)
    requires forall i :: 0 <= i < |s| ==> s[i] == '\n' || s[i] == '\t' || !IsControl(s[i])
    ensures Unescape(Escape(s)) == Some(s)
  {
    EscapeIsPerChar(s);
    EscapeEachRoundTrip(s);
  }

  lemma {:induction false} EscapeEachRoundTrip(s: string)
    requires forall i :: 0 <= i < |s| ==> s[i] == '\n' || s[i] == '\t' || !IsControl(s[i])
    ensures Unescape(EscapeEach(s)) == Some(s)
    decreases |s|
  {
    if s != [] {
      EscapeEachRoundTrip(s[1..]);
      UnescapeCons(s[0], EscapeEach(s[1..]), s[1..]);
      assert s == [s[0]] + s[1..];
    }
  }

  /** As written, a carriage return is copied unescaped, which a basic
      string may not hold: the text does not read back. */
  lemma {:induction false} CarriageReturnNotEscaped()
    ensures Escape("\r") == "\r"
    ensures Unescape(Escape("\r")) == None
  {
    EscapeKeepsOthers("\r");
  }

  // ---------------------------------------------------------------------------
  // The corrected escape: every control character other than tab escaped
  // ---------------------------------------------------------------------------

  function HexDigit(d: nat): (c: char)
    requires d < 16
    ensures IsHexDigit(c) && HexValue(c) == d
  {
    if d < 10 then ('0' as int + d) as char else ('A' as int + d - 10) as char
  }

  /** The escape of one character, using the short escapes where TOML has
      them and `\u00XX` for the other control characters. */
  function EscapeCharFull(c: char): string
  {
    if c == '\\' then "\\\\"
    else if c == '"' then "\\\""
    else if c == '\n' then "\\n"
    else if c == '\r' then "\\r"
    else if c == 0x08 as char then "\\b"
    else if c == 0x0C as char then "\\f"
    else if c != '\t' && IsControl(c) then
      "\\u00" + [HexDigit(c as int / 16), HexDigit(c as int % 16)]
    else [c]
  }

  function EscapeFull(s: string): string
  {
    if s == [] then [] else EscapeCharFull(s[0]) + EscapeFull(s[1..])
  }

  lemma {:induction false} UnescapeConsFull(c: char, t: string, rest: string)
    requires Unescape(t) == Some(rest)
    ensures Unescape(EscapeCharFull(c) + t) == Some([c] + rest)
  {
    var e := EscapeCharFull(c) + t;
    if c == '\\' || c == '"' || c == '\n' || c == '\r' || c == 0x08 as char || c == 0x0C as char {
      assert e[2..] == t;
    } else if c != '\t' && IsControl(c) {
      var hi, lo := HexDigit(c as int / 16), HexDigit(c as int % 16);
      assert e[1] == 'u';
      assert e[2..6] == ['0', '0', hi, lo];
      assert Hex4(e[2..6]) == c as int;
      assert e[6..] == t;
    } else {
      assert e[1..] == t;
    }
  }

  /** Every value survives the corrected escape. */
  lemma {:induction false} EscapeFullRoundTrip(s: string)
    ensures Unescape(EscapeFull(s)) == Some(s)
    decreases |s|
  {
    if s != [] {
      EscapeFullRoundTrip(s[1..]);
      UnescapeConsFull(s[0], EscapeFull(s[1..]), s[1..]);
      assert s == [s[0]] + s[1..];
    }
  }

  /** On values the written escape handles, the corrected one agrees with it. */
  lemma {:induction false} EscapeFullAgrees(s: string)
    requires forall i :: 0 <= i < |s| ==> s[i] == '\n' || s[i] == '\t' || !IsControl(s[i])
    ensures EscapeFull(s) == Escape(s)
    decreases |s|
  {
    EscapeIsPerChar(s);
    if s != [] {
      EscapeFullAgrees(s[1..]);
      EscapeIsPerChar(s[1..]);
    }
  }

  // ---------------------------------------------------------------------------
  // The emitted lines
  // ---------------------------------------------------------------------------

  /** A JSON value: a string, or any other value, held as Python's `str()`
      of it. */
  datatype JsonValue = JStr(s: string) | JOther(repr: string)

  const Header: string := "[gcp_service_account]"

  /** The line of one entry: the key bare, then the value in quotes; only
      string values are escaped. */
  function Line(key: string, value: JsonValue): (l: string)
    ensures value.JStr? ==> l == key + " = \"" + Escape(value.s) + "\""
    ensures value.JOther? ==> l == key + " = \"" + value.repr + "\""
  {
    var text := match value
      case JStr(s) => Escape(s)
      case JOther(repr) => repr;
    key + " = \"" + text + "\""
  }

  /** The quoted part of a string entry's line reads back as the value. */
  lemma {:induction false} LineReadsBack(key: string, s: string)
    requires forall i :: 0 <= i < |s| ==> s[i] == '\n' || s[i] == '\t' || !IsControl(s[i])
    ensures var l := Line(key, JStr(s));
      |l| == |key| + 5 + |Escape(s)| && l[..|key|] == key && l[|key|..|key| + 4] == " = \""
      && l[|l| - 1] == '"' && Unescape(l[|key| + 4..|l| - 1]) == Some(s)
  {
    var l := Line(key, JStr(s));
    assert l[|key| + 4..|l| - 1] == Escape(s);
    EscapeRoundTrip(s);
  }

  /** The converter's loop: the header, then one line per entry, in the
      object's order. */
  method SecretsToml(entries: seq<(string, JsonValue)>) returns (lines: seq<string>)
    ensures |lines| == |entries| + 1
    ensures lines[0] == Header
    ensures forall i :: 0 <= i < |entries| ==> lines[i + 1] == Line(entries[i].0, entries[i].1)
  {
    lines := [Header];
    for i := 0 to |entries|
      invariant |lines| == i + 1 && lines[0] == Header
      invariant forall j :: 0 <= j < i ==> lines[j + 1] == Line(entries[j].0, entries[j].1)
    {
      var (key, value) := entries[i];
      match value {
        case JStr(s) =>
          var escaped := Replace(Replace(Replace(s, '\\', "\\\\"), '"', "\\\""), '\n', "\\n");
          lines := lines + [key + " = \"" + escaped + "\""];
        case JOther(repr) =>
          lines := lines + [key + " = \"" + repr + "\""];
      }
    }
  }
}
