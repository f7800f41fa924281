/**
  CPE 2.3 names: sanitising their fields, and printing and parsing the colon-separated form (section
  6.2 of NISTIR 7695).
*/
module Cpe {
  import opened Prelude
  import opened Strings

  datatype CPE = CPE(part: string, vendor: string, product: string, version: string, update: string, edition: string,
                     language: string, swEdition: string, targetSw: string, targetHw: string, other: string,
                     rawApp: string, appVersion: string)

  datatype ParseError = Syntax

  // ----- Sanitising -------------------------------------------------------------------------------

  function SpaceToUnderscore(s: string): (r: string)
    ensures |r| == |s| && forall i | 0 <= i < |s| :: r[i] == if s[i] == ' ' then '_' else s[i]
  {
    seq(|s|, i requires 0 <= i < |s| => if s[i] == ' ' then '_' else s[i])
  }

  predicate IsNameChar(c: char) {
    'a' <= c <= 'z' || 'A' <= c <= 'Z' || '0' <= c <= '9' || c == '_' || c == '.' || c == '-'
  }

  /** Drops every character a name may not hold. */
  function NameCharsOf(s: string): (r: string)
    ensures forall c | c in r :: IsNameChar(c) && c in s
  {
    if s == "" then ""
    else
      assert s[0] in s && forall c | c in s[1..] :: c in s;
      if IsNameChar(s[0]) then [s[0]] + NameCharsOf(s[1..]) else NameCharsOf(s[1..])
  }

  /** Replaces every run of underscores by one. */
  function Collapsed(s: string): string {
    if |s| <= 1 then s
    else if s[0] == '_' && s[1] == '_' then Collapsed(s[1..])
    else [s[0]] + Collapsed(s[1..])
  }

  predicate IsUnderscore(c: char) {
    c == '_'
  }

  function SanitizeCPEField(val: string): string {
    Trim(Collapsed(NameCharsOf(SpaceToUnderscore(Lower(TrimSpace(val))))), IsUnderscore)
  }

  /** Lower-case name characters, with underscores only singly and inside. */
  predicate IsClean(s: string) {
    && (forall c | c in s :: IsNameChar(c) && !('A' <= c <= 'Z'))
    && (forall i {:trigger s[i]} | 0 < i < |s| :: !(s[i - 1] == '_' && s[i] == '_'))
    && (s != "" ==> s[0] != '_' && s[|s| - 1] != '_')
  }

  predicate NoDouble(s: string) {
    forall i {:trigger s[i]} | 0 < i < |s| :: !(s[i - 1] == '_' && s[i] == '_')
  }

  lemma {:induction false} CollapsedNoDouble(s: string)
    ensures NoDouble(Collapsed(s)) && forall c | c in Collapsed(s) :: c in s
    ensures s != "" ==> Collapsed(s) != "" && Collapsed(s)[0] == s[0]
    ensures NoDouble(s) ==> Collapsed(s) == s
  {
    if |s| > 1 {
      CollapsedNoDouble(s[1..]);
      if NoDouble(s) {
        assert s[1] == s[1..][0];
        assert NoDouble(s[1..]) by {
          forall i | 0 < i < |s[1..]| ensures !(s[1..][i - 1] == '_' && s[1..][i] == '_') {
            assert s[i + 1] == s[1..][i];
          }
        }
      }
    }
  }

  lemma {:induction false} NameCharsOfNames(s: string)
    requires forall c | c in s :: IsNameChar(c)
    ensures NameCharsOf(s) == s
  {
    if s != "" {
      assert s[0] in s && [s[0]] + s[1..] == s;
      NameCharsOfNames(s[1..]);
    }
  }

  lemma LoweredHasNoCapitals(s: string)
    ensures forall c | c in NameCharsOf(SpaceToUnderscore(Lower(s))) :: IsNameChar(c) && !('A' <= c <= 'Z')
  {
    hide Lower, SpaceToUnderscore;
    var t := SpaceToUnderscore(Lower(s));
    assert forall i | 0 <= i < |t| :: !('A' <= t[i] <= 'Z');
  }

  lemma MiddleHasNoDouble(s: string, k: nat, l: nat)
    requires NoDouble(s) && k <= l <= |s|
    ensures NoDouble(s[k..l])
  {
    forall i | 0 < i < l - k ensures !(s[k..l][i - 1] == '_' && s[k..l][i] == '_') {
      assert s[k + i] == s[k..l][i];
    }
  }

  /** Sanitised fields are clean: lower-case name characters and single inner underscores, so no colon. */
  lemma SanitizedIsClean(val: string)
    ensures IsClean(SanitizeCPEField(val))
  {
    hide NameCharsOf, Collapsed, Trim, TrimSpace, Lower;
    var names := NameCharsOf(SpaceToUnderscore(Lower(TrimSpace(val))));
    LoweredHasNoCapitals(TrimSpace(val));
    CollapsedNoDouble(names);
    var k, l := TrimIs(Collapsed(names), IsUnderscore);
    MiddleHasNoDouble(Collapsed(names), k, l);
    var r := Collapsed(names)[k..l];
    assert SanitizeCPEField(val) == r;
    assert forall c | c in r :: c in Collapsed(names) && c in names;
  }

  /** The clean fields are exactly those that sanitising leaves alone, so sanitising twice is sanitising once. */
  lemma CleanIffUnchanged(s: string)
    ensures IsClean(s) <==> SanitizeCPEField(s) == s
    ensures SanitizeCPEField(SanitizeCPEField(s)) == SanitizeCPEField(s)
  {
    hide SanitizeCPEField, IsClean;
    SanitizedIsClean(s);
    CleanIsKept(SanitizeCPEField(s));
    if IsClean(s) {
      CleanIsKept(s);
    }
  }

  lemma LowerKeeps(s: string)
    requires forall c | c in s :: IsNameChar(c) && !('A' <= c <= 'Z')
    ensures Lower(s) == s && SpaceToUnderscore(s) == s
  {
    assert forall i | 0 <= i < |s| :: s[i] in s;
  }

  lemma CleanIsKept(s: string)
    requires IsClean(s)
    ensures SanitizeCPEField(s) == s
  {
    hide Trim, Lower, SpaceToUnderscore, NameCharsOf, Collapsed;
    if s != "" {
      assert s[0] in s && s[|s| - 1] in s;
    }
    TrimKeeps(s, IsSpace);
    LowerKeeps(s);
    NameCharsOfNames(s);
    CollapsedNoDouble(s);
    TrimKeeps(s, IsUnderscore);
  }

  // ----- What becomes of the other fields ---------------------------------------------------------

  /** Sanitising without the trimming of blanks and underscores. */
  function Names(s: string): string {
    NameCharsOf(SpaceToUnderscore(Lower(s)))
  }

  lemma {:induction false} NameCharsJoin(s: string, t: string)
    ensures NameCharsOf(s + t) == NameCharsOf(s) + NameCharsOf(t)
  {
    if s == "" {
      assert s + t == t;
    } else {
      NameCharsJoin(s[1..], t);
      assert (s + t)[1..] == s[1..] + t;
    }
  }

  lemma NamesJoin(s: string, t: string)
    ensures Names(s + t) == Names(s) + Names(t)
  {
    hide NameCharsOf, Lower;
    assert SpaceToUnderscore(Lower(s + t)) == SpaceToUnderscore(Lower(s)) + SpaceToUnderscore(Lower(t));
    NameCharsJoin(SpaceToUnderscore(Lower(s)), SpaceToUnderscore(Lower(t)));
  }

  /** Blanks become underscores or vanish. */
  lemma {:induction false} NamesOfBlanks(s: string)
    requires forall c | c in s :: IsSpace(c)
    ensures Underscores(Names(s))
  {
    hide Names, IsSpace;
    NamesOfOne();
    if s != "" {
      assert s[0] in s && s == [s[0]] + s[1..];
      NamesOfBlanks(s[1..]);
      NamesJoin([s[0]], s[1..]);
      OneBlank(s[0]);
    }
  }

  lemma OneBlank(c: char)
    requires IsSpace(c)
    ensures Names([c]) == if c == ' ' then "_" else ""
  {
    var d := if c == ' ' then '_' else c;
    assert Lower([c]) == [c] && SpaceToUnderscore([c]) == [d];
    assert [d][1..] == "" && NameCharsOf([d]) == if IsNameChar(d) then [d] else "";
  }

  function Core(s: string): string {
    Trim(Collapsed(s), IsUnderscore)
  }

  lemma {:induction false} CollapsedEnd(s: string)
    ensures s == "" || s[|s| - 1] != '_' ==> Collapsed(s + "_") == Collapsed(s) + "_"
    ensures s != "" && s[|s| - 1] == '_' ==> Collapsed(s + "_") == Collapsed(s)
  {
    if |s| > 1 {
      CollapsedEnd(s[1..]);
      assert (s + "_")[1..] == s[1..] + "_";
    }
  }

  lemma TrimEnd(s: string)
    ensures Trim(s + "_", IsUnderscore) == Trim(s, IsUnderscore) && Trim("_" + s, IsUnderscore) == Trim(s, IsUnderscore)
  {
    hide Trim;
    var k, l := TrimIs(s, IsUnderscore);
    var before, mid, after := s[..k], s[k..l], s[l..];
    assert s == before + mid + after;
    if k < l {
      TrimAround(before, mid, after, IsUnderscore);
      TrimAround("_" + before, mid, after, IsUnderscore);
      TrimAround(before, mid, after + "_", IsUnderscore);
      assert "_" + s == ("_" + before) + mid + after && s + "_" == before + mid + (after + "_");
    } else {
      var k1, l1 := TrimIs(s + "_", IsUnderscore);
      var k2, l2 := TrimIs("_" + s, IsUnderscore);
      assert forall i | 0 <= i < |s| :: s[i] == '_';
    }
  }

  lemma CoreIgnoresEnds(s: string)
    ensures Core("_" + s) == Core(s) && Core(s + "_") == Core(s)
  {
    hide Trim;
    CollapsedEnd(s);
    TrimEnd(Collapsed(s));
    assert ("_" + s)[1..] == s;
  }

  predicate Underscores(s: string) {
    forall i | 0 <= i < |s| :: s[i] == '_'
  }

  lemma {:induction false} CoreIgnores(before: string, s: string, after: string)
    requires Underscores(before) && Underscores(after)
    ensures Core(before + s + after) == Core(s)
    decreases |before| + |after|
  {
    hide Core;
    if before != "" {
      var rest := before[1..];
      assert before + s + after == "_" + (rest + s + after);
      CoreIgnoresEnds(rest + s + after);
      CoreIgnores(rest, s, after);
    } else if after != "" {
      var n := |after| - 1;
      assert before + s + after == (before + s + after[..n]) + "_";
      CoreIgnoresEnds(before + s + after[..n]);
      CoreIgnores(before, s, after[..n]);
    } else {
      assert before + s + after == s;
    }
  }

  /** Trimming the blanks first makes no difference. */
  lemma SanitizeIsCore(s: string)
    ensures SanitizeCPEField(s) == Core(Names(s))
  {
    hide Names, Core, IsSpace;
    var k, l := TrimIs(s, IsSpace);
    var before, mid, after := s[..k], s[k..l], s[l..];
    assert s == before + mid + after;
    NamesJoin(before + mid, after);
    NamesJoin(before, mid);
    assert (forall c | c in before :: IsSpace(c)) && (forall c | c in after :: IsSpace(c));
    NamesOfBlanks(before);
    NamesOfBlanks(after);
    CoreIgnores(Names(before), Names(mid), Names(after));
    assert SanitizeCPEField(s) == Core(Names(mid)) by { SanitizeFolds(s); }
  }

  lemma SanitizeFolds(s: string)
    ensures SanitizeCPEField(s) == Core(Names(TrimSpace(s)))
  {
  }

  lemma {:induction false} CollapsedMiddle(s: string, t: string)
    ensures Collapsed(s + "__" + t) == Collapsed(s + "_" + t)
  {
    if s == "" {
      assert ("__" + t)[1..] == "_" + t;
    } else {
      CollapsedMiddle(s[1..], t);
      assert (s + "__" + t)[1..] == s[1..] + "__" + t && (s + "_" + t)[1..] == s[1..] + "_" + t;
    }
  }

  /**
    Anywhere in a field: a space counts as an underscore, several underscores as one, and those at the ends as
    none; a capital counts as its small letter, and a character outside names as nothing. Together with
    WordsAreKept this says what every field becomes.
    */
  lemma SanitizeMeans(s: string, t: string)
    ensures SanitizeCPEField(s + " " + t) == SanitizeCPEField(s + "_" + t)
    ensures SanitizeCPEField(s + "__" + t) == SanitizeCPEField(s + "_" + t)
    ensures SanitizeCPEField("_" + t) == SanitizeCPEField(t) && SanitizeCPEField(s + "_") == SanitizeCPEField(s)
    ensures forall c: char | 'A' <= c <= 'Z' :: SanitizeCPEField(s + [c] + t) == SanitizeCPEField(s + [c - 'A' + 'a'] + t)
    ensures forall c: char | Vanishes(c) :: SanitizeCPEField(s + [c] + t) == SanitizeCPEField(s + t)
  {
    hide SanitizeCPEField, Names, Core;
    NamesOfOne();
    SameNamesSameField(s, " ", "_", t);
    UnderscoresCollapse(s, t);
    EndsCountAsNone(s);
    EndsCountAsNone(t);
    forall c: char | 'A' <= c <= 'Z' ensures SanitizeCPEField(s + [c] + t) == SanitizeCPEField(s + [c - 'A' + 'a'] + t) {
      NamesOfCapital(c);
      SameNamesSameField(s, [c], [c - 'A' + 'a'], t);
    }
    forall c: char | Vanishes(c) ensures SanitizeCPEField(s + [c] + t) == SanitizeCPEField(s + t) {
      NamesOfOther(c);
      SameNamesSameField(s, [c], "", t);
      assert s + "" + t == s + t;
    }
  }

  /** Not a letter, even a lower-cased one, digit, underscore, dot, hyphen or space. */
  predicate Vanishes(c: char) {
    && !('a' <= c <= 'z' || 'A' <= c <= 'Z' || '0' <= c <= '9' || c == '_' || c == '.' || c == '-' || c == ' ')
    && c != '\U{130}' && c != '\U{212A}'
  }

  /** Small letters, digits, dots and hyphens only, and at least one. */
  predicate IsNameWord(s: string) {
    s != "" && forall i | 0 <= i < |s| :: 'a' <= s[i] <= 'z' || '0' <= s[i] <= '9' || s[i] == '.' || s[i] == '-'
  }

  ghost predicate AllWords(words: seq<string>) {
    forall i | 0 <= i < |words| :: IsNameWord(words[i])
  }

  lemma {:induction false} JoinedWords(words: seq<string>)
    requires words != [] && AllWords(words)
    ensures IsClean(Join(words, '_')) && Join(words, '_') != ""
  {
    if |words| > 1 {
      JoinedWords(words[1..]);
      var rest := Join(words[1..], '_');
      var s := words[0] + ['_'] + rest;
      forall i | 0 < i < |s| ensures !(s[i - 1] == '_' && s[i] == '_') {
        assert i > |words[0]| + 1 ==> s[i] == rest[i - |words[0]| - 1] && s[i - 1] == rest[i - |words[0]| - 2];
      }
    } else {
      assert forall c | c in words[0] :: c != '_' && IsNameChar(c) && !('A' <= c <= 'Z');
    }
  }

  /** Words joined by single underscores are kept as they are. */
  lemma WordsAreKept(words: seq<string>)
    requires words != [] && AllWords(words)
    ensures SanitizeCPEField(Join(words, '_')) == Join(words, '_') && SanitizeCPEField("") == ""
  {
    hide SanitizeCPEField, Join, IsClean;
    JoinedWords(words);
    CleanIsKept(Join(words, '_'));
    EmptyIsClean();
    CleanIsKept("");
  }

  lemma EmptyIsClean()
    ensures IsClean("")
  {
  }

  lemma SameNamesSameField(s: string, c: string, d: string, t: string)
    requires Names(c) == Names(d)
    ensures SanitizeCPEField(s + c + t) == SanitizeCPEField(s + d + t)
  {
    hide SanitizeCPEField, Names, Core;
    SanitizeIsCore(s + c + t);
    SanitizeIsCore(s + d + t);
    NamesJoin(s + c, t);
    NamesJoin(s, c);
    NamesJoin(s + d, t);
    NamesJoin(s, d);
  }

  lemma UnderscoresCollapse(s: string, t: string)
    ensures SanitizeCPEField(s + "__" + t) == SanitizeCPEField(s + "_" + t)
  {
    hide SanitizeCPEField, Names, Core;
    NamesOfOne();
    SanitizeIsCore(s + "__" + t);
    SanitizeIsCore(s + "_" + t);
    NamesJoin(s + "__", t);
    NamesJoin(s, "__");
    NamesJoin(s + "_", t);
    NamesJoin(s, "_");
    CoreMiddle(Names(s), Names(t));
  }

  lemma CoreMiddle(s: string, t: string)
    ensures Core(s + "__" + t) == Core(s + "_" + t)
  {
    CollapsedMiddle(s, t);
  }

  lemma EndsCountAsNone(s: string)
    ensures SanitizeCPEField("_" + s) == SanitizeCPEField(s) == SanitizeCPEField(s + "_")
  {
    hide SanitizeCPEField, Names, Core;
    assert Names("_") == "_" by { NamesOfOne(); }
    SanitizeIsCore(s);
    SanitizeIsCore("_" + s);
    SanitizeIsCore(s + "_");
    NamesJoin("_", s);
    NamesJoin(s, "_");
    CoreIgnoresEnds(Names(s));
  }

  lemma NamesOfOne()
    ensures Names("_") == "_" && Names(" ") == "_" && Names("__") == "__" && Names("") == ""
  {
    LowerKeeps("__");
    LowerKeeps("_");
    NameCharsOfNames("__");
    NameCharsOfNames("_");
    OneBlank(' ');
  }

  lemma NamesOfCapital(c: char)
    requires 'A' <= c <= 'Z'
    ensures Names([c]) == Names([c - 'A' + 'a'])
  {
    assert Lower([c]) == [c - 'A' + 'a'] == Lower([c - 'A' + 'a']);
  }

  lemma NamesOfOther(c: char)
    requires c != ' ' && !IsNameChar(c) && c != '\U{130}' && c != '\U{212A}'
    ensures Names([c]) == "" && Names("") == ""
  {
    assert Lower([c]) == [c] && SpaceToUnderscore([c]) == [c];
    assert [c][1..] == "" && NameCharsOf([c]) == "" && Lower("") == "";
  }

  // ----- Printing and parsing -----------------------------------------------------------------------

  function OrStar(s: string): string {
    if s == "" then "*" else s
  }

  function Field(val: string): string {
    OrStar(SanitizeCPEField(val))
  }

  /** The fields as they are printed: sanitised but for the part, with the defaults filled in. */
  function Fields(c: CPE): (fields: seq<string>)
    ensures |fields| == 11
  {
    [if c.part == "" then "a" else c.part, Field(c.vendor), Field(c.product), Field(c.version), Field(c.update),
     Field(c.edition), Field(c.language), Field(c.swEdition), Field(c.targetSw), Field(c.targetHw), Field(c.other)]
  }

  function Print(c: CPE): string {
    Join(["cpe", "2.3"] + Fields(c), ':')
  }

  function Nth(parts: seq<string>, i: nat): string {
    if i < |parts| then parts[i] else ""
  }

  /** Missing fields stay empty, and fields after the thirteenth are ignored. */
  function Parse(s: string): Result<CPE, ParseError> {
    var parts := Split(s, ':');
    if |parts| < 5 || parts[0] != "cpe" || parts[1] != "2.3" then Err(Syntax)
    else Ok(CPE(parts[2], parts[3], parts[4], Nth(parts, 5), Nth(parts, 6), Nth(parts, 7), Nth(parts, 8), Nth(parts, 9),
                Nth(parts, 10), Nth(parts, 11), Nth(parts, 12), "", ""))
  }

  /** Parsing as it runs: the optional fields are filled in one by one, as far as the name goes. */
  method ParseCPE23String(cpeStr: string) returns (r: Result<CPE, ParseError>)
    ensures r == Parse(cpeStr)
  {
    var parts := Split(cpeStr, ':');
    if |parts| < 5 || parts[0] != "cpe" || parts[1] != "2.3" {
      return Err(Syntax);
    }
    var res := CPE(parts[2], parts[3], parts[4], "", "", "", "", "", "", "", "", "", "");
    if |parts| > 5 { res := res.(version := parts[5]); }
    if |parts| > 6 { res := res.(update := parts[6]); }
    if |parts| > 7 { res := res.(edition := parts[7]); }
    if |parts| > 8 { res := res.(language := parts[8]); }
    if |parts| > 9 { res := res.(swEdition := parts[9]); }
    if |parts| > 10 { res := res.(targetSw := parts[10]); }
    if |parts| > 11 { res := res.(targetHw := parts[11]); }
    if |parts| > 12 { res := res.(other := parts[12]); }
    return Ok(res);
  }

  /** What a printed name says. */
  function Sanitized(c: CPE): CPE {
    CPE(if c.part == "" then "a" else c.part, Field(c.vendor), Field(c.product), Field(c.version), Field(c.update),
        Field(c.edition), Field(c.language), Field(c.swEdition), Field(c.targetSw), Field(c.targetHw), Field(c.other), "", "")
  }

  lemma FieldHasNoColon(val: string)
    ensures ':' !in Field(val) && Field(Field(val)) == Field(val)
  {
    hide SanitizeCPEField;
    SanitizedIsClean(val);
    CleanIffUnchanged(val);
    assert SanitizeCPEField("*") == "" by { StarSanitizesAway(); }
  }

  lemma StarSanitizesAway()
    ensures SanitizeCPEField("*") == ""
  {
  }

  lemma FieldsHaveNoColon(c: CPE)
    ensures forall i | 1 <= i < 11 :: ':' !in Fields(c)[i]
  {
    hide Field;
    FieldHasNoColon(c.vendor);
    FieldHasNoColon(c.product);
    FieldHasNoColon(c.version);
    FieldHasNoColon(c.update);
    FieldHasNoColon(c.edition);
    FieldHasNoColon(c.language);
    FieldHasNoColon(c.swEdition);
    FieldHasNoColon(c.targetSw);
    FieldHasNoColon(c.targetHw);
    FieldHasNoColon(c.other);
  }

  /**
    Printing and parsing a name gives its sanitised fields, with "*" for the empty ones, exactly when the
    part, the one field that is printed as it stands, holds no colon.
  */
  lemma PrintParseIff(c: CPE)
    ensures Parse(Print(c)) == Ok(Sanitized(c)) <==> ':' !in c.part
  {
    hide Field, Split;
    if ':' in c.part {
      SplitParts(Print(c), ':');
      var parts := Split(Print(c), ':');
      if |parts| >= 5 {
        assert parts[2] in parts;
      }
    } else {
      PartsOfPrint(c);
    }
  }

  /** Printing what was parsed gives the same string again. */
  lemma PrintingIsStable(c: CPE)
    ensures Print(Sanitized(c)) == Print(c)
    ensures ':' !in c.part ==> Parse(Print(c)).Ok? && Print(Parse(Print(c)).value) == Print(c)
  {
    hide Field, Join, Parse;
    PrintParseIff(c);
    FieldHasNoColon(c.vendor);
    FieldHasNoColon(c.product);
    FieldHasNoColon(c.version);
    FieldHasNoColon(c.update);
    FieldHasNoColon(c.edition);
    FieldHasNoColon(c.language);
    FieldHasNoColon(c.swEdition);
    FieldHasNoColon(c.targetSw);
    FieldHasNoColon(c.targetHw);
    FieldHasNoColon(c.other);
    assert Fields(Sanitized(c)) == Fields(c);
  }

  /** An empty field is shown as a star. */
  function Shown(s: string): string {
    if |s| == 0 then "*" else s
  }

  /** A name whose fields are clean holds just these fields between its colons; an empty part stands for an application. */
  lemma PrintMeans(c: CPE)
    requires IsClean(c.vendor) && IsClean(c.product) && IsClean(c.version) && IsClean(c.update) && IsClean(c.edition)
    requires IsClean(c.language) && IsClean(c.swEdition) && IsClean(c.targetSw) && IsClean(c.targetHw) && IsClean(c.other)
    requires ':' !in c.part
    ensures Split(Print(c), ':') ==
            ["cpe", "2.3", if |c.part| > 0 then c.part else "a", Shown(c.vendor), Shown(c.product), Shown(c.version),
             Shown(c.update), Shown(c.edition), Shown(c.language), Shown(c.swEdition), Shown(c.targetSw),
             Shown(c.targetHw), Shown(c.other)]
  {
    hide Field, IsClean, Shown, Split, Join;
    ShownIs(c.vendor);
    ShownIs(c.product);
    ShownIs(c.version);
    ShownIs(c.update);
    ShownIs(c.edition);
    ShownIs(c.language);
    ShownIs(c.swEdition);
    ShownIs(c.targetSw);
    ShownIs(c.targetHw);
    ShownIs(c.other);
    PartsOfPrint(c);
  }

  lemma ShownIs(s: string)
    requires IsClean(s)
    ensures Field(s) == Shown(s)
  {
    hide SanitizeCPEField, IsClean;
    CleanIffUnchanged(s);
  }

  lemma PartsOfPrint(c: CPE)
    requires ':' !in c.part
    ensures Split(Print(c), ':') == ["cpe", "2.3"] + Fields(c)
  {
    hide Field, Split;
    FieldsHaveNoColon(c);
    var parts := ["cpe", "2.3"] + Fields(c);
    forall p | p in parts ensures ':' !in p {
      var i :| 0 <= i < 13 && parts[i] == p;
      if i >= 3 {
        assert p == Fields(c)[i - 2];
      }
    }
    SplitJoin(parts, ':');
  }
}
