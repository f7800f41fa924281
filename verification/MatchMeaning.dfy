/** What it takes for a host's CPE to satisfy a criterion, spelled out on the criterion's own text and bounds. */
module MatchMeaning {
  import opened Prelude
  import opened Strings
  import opened Versions
  import opened VersionOrder
  import opened Cpe
  import opened CpeMatcher

  /** Vendors and products meet when either is "*", they are equal but for case, or one occurs in the other. */
  ghost predicate NamesMeet(name: string, other: string) {
    name == "*" || other == "*" || SameButForCase(name, other) || Occurs(Lower(name), Lower(other)) || Occurs(Lower(other), Lower(name))
  }

  predicate PartsMeet(part: string, other: string) {
    part == "*" || other == "*" || part == other
  }

  predicate Unbounded(m: CpeMatch) {
    m.versionStartIncluding == "" && m.versionStartExcluding == "" && m.versionEndIncluding == "" && m.versionEndExcluding == ""
  }

  /** Every bound that is set holds of the version. */
  predicate InBounds(version: string, m: CpeMatch) {
    && (m.versionStartIncluding == "" || Compare(version, m.versionStartIncluding) >= 0)
    && (m.versionStartExcluding == "" || Compare(version, m.versionStartExcluding) > 0)
    && (m.versionEndIncluding == "" || Compare(version, m.versionEndIncluding) <= 0)
    && (m.versionEndExcluding == "" || Compare(version, m.versionEndExcluding) < 0)
  }

  /** An unknown version meets everything; bounds come before the version that the criterion names. */
  predicate VersionMeets(version: string, m: CpeMatch, named: string) {
    || version == "" || version == "*"
    || (!Unbounded(m) && InBounds(version, m))
    || (Unbounded(m) && (named == "*" || named == "-" || Compare(version, named) == 0 || SameButForCase(version, named)))
  }

  predicate IsName(parts: seq<string>) {
    |parts| >= 5 && parts[0] == "cpe" && parts[1] == "2.3"
  }

  /**
    A criterion whose text is a CPE name is met by part, vendor, product and version together; any other
    text, if it is one or the criterion says vulnerable, by holding the product, within the bounds.
  */
  ghost predicate Meets(host: CPE, m: CpeMatch) {
    var parts := Split(m.criteria, ':');
    if IsName(parts) then
      && PartsMeet(parts[2], host.part)
      && NamesMeet(parts[3], host.vendor)
      && NamesMeet(parts[4], host.product)
      && VersionMeets(host.version, m, if |parts| > 5 then parts[5] else "")
    else
      && (m.vulnerable || m.criteria != "")
      && Occurs(host.product, Lower(m.criteria))
      && (host.version == "" || host.version == "*" || InBounds(host.version, m))
  }

  lemma NamesMeetIs(crit: string, host: string)
    ensures SimilarNames(crit, host) <==> NamesMeet(crit, host)
    ensures NamesMeet(crit, host) <==> NamesMeet(host, crit)
  {
    hide Lower, EqualFold, Strings.Contains, Occurs, SameButForCase;
    FoldIs(crit, host);
    FoldIs(host, crit);
    assert EqualFold(crit, host) <==> EqualFold(host, crit) by { FoldSymmetric(crit, host); }
    OccursIs(Lower(crit), Lower(host));
    OccursIs(Lower(host), Lower(crit));
  }

  lemma FoldSymmetric(s: string, t: string)
    ensures EqualFold(s, t) <==> EqualFold(t, s)
  {
  }

  lemma ParseIs(s: string)
    ensures var parts := Split(s, ':');
            && (Parse(s).Ok? <==> IsName(parts))
            && (IsName(parts) ==>
                  && Parse(s).value.part == parts[2] && Parse(s).value.vendor == parts[3] && Parse(s).value.product == parts[4]
                  && Parse(s).value.version == if |parts| > 5 then parts[5] else "")
  {
    hide Split;
  }

  lemma VersionIs(version: string, m: CpeMatch)
    ensures var parts := Split(m.criteria, ':');
            CheckVersionBounds(version, m) <==>
            if IsName(parts) then VersionMeets(version, m, if |parts| > 5 then parts[5] else "")
            else version == "" || version == "*" || InBounds(version, m)
  {
    hide Split, Compare, Parse, EqualFold, SameButForCase;
    ParseIs(m.criteria);
    if Parse(m.criteria).Ok? {
      FoldIs(version, Parse(m.criteria).value.version);
    }
  }

  /** A host CPE matches exactly when it meets the criterion. */
  lemma MatchesIff(host: CPE, m: CpeMatch)
    ensures MatchesCPE(host, m) <==> Meets(host, m)
  {
    hide Split, Parse, CheckVersionBounds, VersionMeets, InBounds, SimilarNames, NamesMeet, Strings.Contains, Occurs, Lower;
    ParseIs(m.criteria);
    VersionIs(host.version, m);
    OccursIs(host.product, Lower(m.criteria));
    EmptyIsNoName();
    if Parse(m.criteria).Ok? {
      NamesMeetIs(Parse(m.criteria).value.vendor, host.vendor);
      NamesMeetIs(Parse(m.criteria).value.product, host.product);
    }
  }

  lemma EmptyIsNoName()
    ensures !IsName(Split("", ':'))
  {
  }

  /** A name's fields are the text between its colons, so a name put together from fields is met by these. */
  lemma NameMeets(host: CPE, m: CpeMatch, fields: seq<string>)
    requires |fields| >= 4 && (forall f | f in fields :: ':' !in f) && m.criteria == Join(["cpe", "2.3"] + fields, ':')
    ensures MatchesCPE(host, m) <==>
            && PartsMeet(fields[0], host.part) && NamesMeet(fields[1], host.vendor) && NamesMeet(fields[2], host.product)
            && VersionMeets(host.version, m, fields[3])
  {
    hide MatchesCPE, PartsMeet, NamesMeet, VersionMeets, Split, Join;
    MatchesIff(host, m);
    SplitJoin(["cpe", "2.3"] + fields, ':');
  }
}
