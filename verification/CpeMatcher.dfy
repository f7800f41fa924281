/** Deciding whether a host's CPE satisfies a match criterion of a CVE. */
module CpeMatcher {
  import opened Prelude
  import opened Strings
  import opened Versions
  import opened VersionOrder
  import opened Cpe

  datatype CpeMatch = CpeMatch(vulnerable: bool, criteria: string,
                               versionStartIncluding: string, versionStartExcluding: string,
                               versionEndIncluding: string, versionEndExcluding: string)

  predicate HasRange(m: CpeMatch) {
    m.versionStartIncluding != "" || m.versionStartExcluding != "" || m.versionEndIncluding != "" || m.versionEndExcluding != ""
  }

  predicate InRange(version: string, m: CpeMatch) {
    && (m.versionStartIncluding != "" ==> Compare(version, m.versionStartIncluding) >= 0)
    && (m.versionStartExcluding != "" ==> Compare(version, m.versionStartExcluding) > 0)
    && (m.versionEndIncluding != "" ==> Compare(version, m.versionEndIncluding) <= 0)
    && (m.versionEndExcluding != "" ==> Compare(version, m.versionEndExcluding) < 0)
  }

  predicate ExactMatch(hostVer: string, version: string) {
    Compare(hostVer, version) == 0 || EqualFold(hostVer, version)
  }

  /** An unknown host version is in every range; without a range the criterion's own version decides. */
  predicate CheckVersionBounds(hostVer: string, m: CpeMatch) {
    if hostVer == "" || hostVer == "*" then true
    else if HasRange(m) then InRange(hostVer, m)
    else
      match Parse(m.criteria)
      case Ok(crit) =>
        crit.version == "*" || crit.version == "-" || ExactMatch(hostVer, crit.version)
      case Err(_) => true
  }

  /** Vendors and products match when one contains the other, whatever the case; "*" matches any. */
  predicate SimilarNames(crit: string, host: string) {
    || crit == "*" || host == "*" || EqualFold(crit, host)
    || Strings.Contains(Lower(host), Lower(crit)) || Strings.Contains(Lower(crit), Lower(host))
  }

  predicate MatchesCPE(host: CPE, m: CpeMatch) {
    if !m.vulnerable && m.criteria == "" then false
    else
      match Parse(m.criteria)
      case Err(_) => Strings.Contains(Lower(m.criteria), host.product) && CheckVersionBounds(host.version, m)
      case Ok(crit) =>
        && (crit.part == "*" || host.part == "*" || crit.part == host.part)
        && SimilarNames(crit.vendor, host.vendor)
        && SimilarNames(crit.product, host.product)
        && CheckVersionBounds(host.version, m)
  }

  // ----- What the bounds accept -------------------------------------------------------------------

  /** The bounds of a criterion are all versions of numbers and words. */
  predicate OrderedBounds(m: CpeMatch) {
    && (m.versionStartIncluding != "" ==> IsOrdered(m.versionStartIncluding))
    && (m.versionStartExcluding != "" ==> IsOrdered(m.versionStartExcluding))
    && (m.versionEndIncluding != "" ==> IsOrdered(m.versionEndIncluding))
    && (m.versionEndExcluding != "" ==> IsOrdered(m.versionEndExcluding))
  }

  lemma OrderedIsKnown(version: string)
    requires IsOrdered(version)
    ensures version != "" && version != "*"
  {
    OneComponent("*");
    assert Components("") == [""];
    assert LeadingDigits("") == "" && LeadingDigits("*") == "";
    assert "" in [""] && "*" in ["*"];
  }

  lemma BetweenBounds(low: string, mid: string, high: string, bound: string)
    requires IsOrdered(low) && IsOrdered(mid) && IsOrdered(high) && IsOrdered(bound)
    requires Compare(low, mid) <= 0 && Compare(mid, high) <= 0
    ensures Compare(low, bound) >= 0 ==> Compare(mid, bound) >= 0
    ensures Compare(low, bound) > 0 ==> Compare(mid, bound) > 0
    ensures Compare(high, bound) <= 0 ==> Compare(mid, bound) <= 0
    ensures Compare(high, bound) < 0 ==> Compare(mid, bound) < 0
  {
    hide Compare, IsOrdered;
    CompareAntisymmetric(low, mid);
    CompareAntisymmetric(mid, high);
    CompareAntisymmetric(low, bound);
    CompareAntisymmetric(mid, bound);
    CompareAntisymmetric(high, bound);
    OrderedVersionsArePreordered(mid, bound, low);
    OrderedVersionsArePreordered(bound, low, mid);
    OrderedVersionsArePreordered(low, mid, bound);
    OrderedVersionsArePreordered(mid, high, bound);
    OrderedVersionsArePreordered(bound, mid, high);
    OrderedVersionsArePreordered(high, bound, mid);
  }

  /** Bounds accept no version without accepting everything between it and another accepted one. */
  lemma RangesAreConvex(low: string, mid: string, high: string, m: CpeMatch)
    requires IsOrdered(low) && IsOrdered(mid) && IsOrdered(high) && OrderedBounds(m) && HasRange(m)
    requires Compare(low, mid) <= 0 && Compare(mid, high) <= 0
    requires CheckVersionBounds(low, m) && CheckVersionBounds(high, m)
    ensures CheckVersionBounds(mid, m)
  {
    hide Compare, IsOrdered;
    OrderedIsKnown(low);
    OrderedIsKnown(high);
    if m.versionStartIncluding != "" { BetweenBounds(low, mid, high, m.versionStartIncluding); }
    if m.versionStartExcluding != "" { BetweenBounds(low, mid, high, m.versionStartExcluding); }
    if m.versionEndIncluding != "" { BetweenBounds(low, mid, high, m.versionEndIncluding); }
    if m.versionEndExcluding != "" { BetweenBounds(low, mid, high, m.versionEndExcluding); }
  }

  // ----- Hosts that compare equal -----------------------------------------------------------------

  predicate SameUpper(s: string, t: string) {
    Upper(s) == Upper(t)
  }

  lemma SameUpperAt(s: string, t: string)
    requires SameUpper(s, t)
    ensures |s| == |t| && forall i | 0 <= i < |s| :: UpperChar(s[i]) == UpperChar(t[i])
  {
    assert forall i | 0 <= i < |s| :: Upper(s)[i] == Upper(t)[i];
  }

  lemma SameUpperPiece(s: string, t: string, i: nat, j: nat)
    requires SameUpper(s, t) && i <= j <= |s|
    ensures |t| == |s| && SameUpper(s[i..j], t[i..j])
  {
    SameUpperAt(s, t);
    assert forall k | 0 <= k < j - i :: Upper(s[i..j])[k] == Upper(t[i..j])[k];
  }

  lemma {:induction false} UpperDigits(s: string, t: string)
    requires SameUpper(s, t)
    ensures LeadingDigits(s) == LeadingDigits(t)
  {
    SameUpperAt(s, t);
    if s != "" {
      SameUpperPiece(s, t, 1, |s|);
      UpperDigits(s[1..], t[1..]);
    }
  }

  lemma {:induction false} UpperTrimLeft(s: string, t: string)
    requires SameUpper(s, t)
    ensures SameUpper(TrimLeft(s, IsSpace), TrimLeft(t, IsSpace))
  {
    SameUpperAt(s, t);
    if s != "" {
      SameUpperPiece(s, t, 1, |s|);
      UpperTrimLeft(s[1..], t[1..]);
    }
  }

  lemma {:induction false} UpperTrimRight(s: string, t: string)
    requires SameUpper(s, t)
    ensures SameUpper(TrimRight(s, IsSpace), TrimRight(t, IsSpace))
  {
    hide SameUpper;
    SameUpperAt(s, t);
    if s != "" {
      assert UpperChar(s[|s| - 1]) == UpperChar(t[|t| - 1]);
      SameUpperPiece(s, t, 0, |s| - 1);
      UpperTrimRight(s[..|s| - 1], t[..|s| - 1]);
    }
  }

  lemma {:induction false} UpperSplit(s: string, t: string)
    requires SameUpper(s, t)
    ensures |Split(s, '.')| == |Split(t, '.')|
    ensures forall i | 0 <= i < |Split(s, '.')| :: SameUpper(Split(s, '.')[i], Split(t, '.')[i])
  {
    SameUpperAt(s, t);
    if s != "" {
      SameUpperPiece(s, t, 1, |s|);
      UpperSplit(s[1..], t[1..]);
    }
  }

  lemma NumericStart(s: string)
    requires AllNumbers(Split(s, '.'))
    ensures s != "" && IsDigit(s[0])
  {
    assert Split(s, '.')[0] in Split(s, '.');
    assert Number(Split(s, '.')[0]).Some?;
  }

  /** Numeric versions that differ only in case compare equal. */
  lemma FoldedVersionsAreEqual(v1: string, v2: string)
    requires IsNumeric(v1) && IsNumeric(v2) && EqualFold(v1, v2)
    ensures Compare(v1, v2) == 0
  {
    hide Split, Compare, Upper, TrimLeft, TrimRight;
    var t1, t2 := TrimSpace(v1), TrimSpace(v2);
    UpperTrimLeft(v1, v2);
    UpperTrimRight(TrimLeft(v1, IsSpace), TrimLeft(v2, IsSpace));
    SameUpperAt(t1, t2);
    NumericStart(WithoutV(t1));
    NumericStart(WithoutV(t2));
    if t1 != "" && t1[0] == 'v' {
      SameUpperPiece(t1, t2, 1, |t1|);
    }
    UpperSplit(WithoutV(t1), WithoutV(t2));
    forall j: nat ensures At(v1, j) == At(v2, j) {
      if j < |Components(v1)| {
        UpperDigits(Components(v1)[j], Components(v2)[j]);
      }
    }
    ComparesAsNumbers(v1, v2);
  }

  // ----- Matching one's own name ------------------------------------------------------------------

  predicate IsField(s: string) {
    s == "*" || (s != "" && IsClean(s))
  }

  lemma FieldIsKept(s: string)
    requires IsField(s)
    ensures Field(s) == s
  {
    hide IsClean, SanitizeCPEField;
    StarSanitizesAway();
    CleanIffUnchanged(s);
  }

  lemma EqualsItself(version: string)
    ensures Compare(version, version) == 0
  {
    SamePartsAreEqual(Components(version), 0);
  }

  /** A host's CPE with proper fields satisfies the criterion that is its own printed name. */
  lemma MatchesItself(host: CPE)
    requires IsField(host.vendor) && IsField(host.product) && IsField(host.version)
    requires host.part != "" && ':' !in host.part
    ensures MatchesCPE(host, CpeMatch(true, Print(host), "", "", "", ""))
  {
    hide Parse, Print, Field, IsField, Compare;
    PrintParseIff(host);
    FieldIsKept(host.vendor);
    FieldIsKept(host.product);
    FieldIsKept(host.version);
    EqualsItself(host.version);
  }
}
