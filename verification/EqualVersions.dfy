/**
  Host versions that compare equal, such as "1.2" and "1.2.0", and the criteria that tell them apart
  all the same: exactly those whose version or bound has one of the shapes below.
*/
module EqualVersions {
  import opened Prelude
  import opened Strings
  import opened Versions
  import opened VersionOrder
  import opened Cpe
  import opened CpeMatcher

  /** Two numeric host versions compare equal, but only one of them matches. */
  ghost predicate TellsApart(version: string) {
    exists v1, v2 :: IsNumeric(v1) && IsNumeric(v2) && Compare(v1, v2) == 0 && ExactMatch(v1, version) && !ExactMatch(v2, version)
  }

  /** Numbers, then an empty component, then only empty components and zeros: "1.2." or "1..0". */
  predicate EndsEmpty(version: string) {
    exists k | 1 <= k < |Components(version)| :: EmptyFrom(Components(version), k)
  }

  predicate EmptyFrom(parts: seq<string>, k: nat)
    requires k < |parts|
  {
    && parts[k] == "" && AllNumbers(parts[..k])
    && forall j | k <= j < |parts| :: parts[j] == "" || Number(parts[j]) == Some(0)
  }

  /** Numbers behind a capital V, which is not taken for a prefix: "V1.2". */
  predicate CapitalPrefix(version: string) {
    var t := TrimSpace(version);
    t != "" && t[0] == 'V' && AllNumbers(Split(t[1..], '.'))
  }

  // ----- Versions of plain components -------------------------------------------------------------

  predicate IsPlainChar(c: char) {
    IsDigit(c) || c == 'z'
  }

  /** Components that make up a version without blanks, prefix or empty components. */
  predicate Plain(parts: seq<string>) {
    |parts| >= 1 && forall p | p in parts :: p != "" && IsDigit(p[0]) && forall c | c in p :: IsPlainChar(c)
  }

  lemma {:induction false} JoinChars(parts: seq<string>)
    requires Plain(parts)
    ensures var s := Join(parts, '.');
            s != "" && IsDigit(s[0]) && IsPlainChar(s[|s| - 1])
  {
    var p := parts[0];
    assert p in parts && p[|p| - 1] in p;
    if |parts| > 1 {
      JoinChars(parts[1..]);
    }
  }

  lemma PlainComponents(parts: seq<string>)
    requires Plain(parts)
    ensures Components(Join(parts, '.')) == parts
  {
    JoinChars(parts);
    TrimKeeps(Join(parts, '.'), IsSpace);
    SplitJoin(parts, '.') by {
      forall p | p in parts ensures '.' !in p {
        assert forall c | c in p :: IsPlainChar(c);
      }
    }
  }

  /** The leading digits of each component: a plain version with the same numbers. */
  function Digits(parts: seq<string>): (d: seq<string>)
    ensures |d| == |parts| && forall i | 0 <= i < |parts| :: d[i] == LeadingDigits(parts[i])
  {
    seq(|parts|, i requires 0 <= i < |parts| => LeadingDigits(parts[i]))
  }

  lemma DigitsArePlain(parts: seq<string>)
    requires AllNumbers(parts)
    ensures |parts| >= 1 ==> Plain(Digits(parts))
    ensures AllNumbers(Digits(parts))
    ensures forall i | 0 <= i < |parts| :: Number(Digits(parts)[i]) == Number(parts[i])
  {
    var d := Digits(parts);
    forall i | 0 <= i < |parts|
      ensures d[i] != "" && IsDigit(d[i][0]) && AllDigits(d[i]) && Number(d[i]) == Number(parts[i]) && Number(d[i]).Some?
    {
      assert parts[i] in parts;
      AllLeading(LeadingDigits(parts[i]));
    }
    forall p | p in d ensures p != "" && IsDigit(p[0]) && AllDigits(p) && Number(p).Some? {
      var i :| 0 <= i < |d| && d[i] == p;
    }
  }

  // ----- Comparing equal, component by component ----------------------------------------------------

  lemma {:induction false} EqualEverywhere(p1: seq<string>, p2: seq<string>, i: nat)
    ensures CompareFrom(p1, p2, i) == 0 <==> forall j: nat | i <= j < MaxLength(p1, p2) :: CompareAt(p1, p2, j) == 0
    decreases MaxLength(p1, p2) - i
  {
    hide CompareAt;
    if i < MaxLength(p1, p2) {
      EqualEverywhere(p1, p2, i + 1);
    }
  }

  /** Where the versions agree up to a component, the rest decides. */
  lemma {:induction false} EqualUpTo(p: seq<string>, q: seq<string>, i: nat, k: nat)
    requires i <= k && forall j: nat | i <= j < k :: CompareAt(p, q, j) == 0
    ensures CompareFrom(p, q, i) == CompareFrom(p, q, k)
    decreases k - i
  {
    hide CompareAt;
    if i < k {
      CompareStep(p, q, i);
      EqualUpTo(p, q, i + 1, k);
    }
  }

  /** Missing components are never after what stands against them. */
  lemma {:induction false} MissingIsLeast(p: seq<string>, q: seq<string>, i: nat)
    requires i >= |p|
    ensures CompareFrom(p, q, i) <= 0
    ensures CompareFrom(p, q, i) == 0 <==> forall j | i <= j < |q| :: q[j] == "" || Number(q[j]) == Some(0)
    decreases |q| - i
  {
    hide Number;
    ZeroIsNumber();
    if i < |q| {
      MissingIsLeast(p, q, i + 1);
    }
  }

  lemma {:induction false} FirstBad(parts: seq<string>) returns (k: nat)
    requires !AllNumbers(parts)
    ensures k < |parts| && AllNumbers(parts[..k]) && Number(parts[k]) == None
  {
    if Number(parts[0]).None? {
      k := 0;
    } else {
      assert parts == [parts[0]] + parts[1..];
      k := FirstBad(parts[1..]);
      k := k + 1;
      assert parts[..k] == [parts[0]] + parts[1..][..k - 1];
    }
  }

  // ----- Versions that compare differently with equal hosts ---------------------------------------

  /** Numeric host versions that compare equal, but differently with this version. */
  ghost predicate ComparesDifferently(version: string) {
    exists v1, v2 :: IsNumeric(v1) && IsNumeric(v2) && Compare(v1, v2) == 0 && Compare(v1, version) != Compare(v2, version)
  }

  /**
    The first component that is no number starts with a digit, being too long for 64 bits; or it is
    not the first of all, and is empty or starts below the digits.
  */
  predicate UnstableAt(parts: seq<string>, k: nat) {
    && k < |parts| && AllNumbers(parts[..k]) && Number(parts[k]).None?
    && ((parts[k] != "" && IsDigit(parts[k][0])) || (k >= 1 && (parts[k] == "" || parts[k][0] < '0')))
  }

  predicate Unstable(version: string) {
    exists k | 0 <= k < |Components(version)| :: UnstableAt(Components(version), k)
  }

  lemma SmallNumber(c: char)
    requires IsDigit(c)
    ensures Number([c]).Some? && Number([c, 'z']) == Number([c])
  {
    assert LeadingDigits("") == "" && LeadingDigits("z") == "";
    assert [c][1..] == "" && LeadingDigits([c]) == [c] + LeadingDigits([c][1..]) == [c];
    assert [c, 'z'][1..] == "z" && LeadingDigits([c, 'z']) == [c] + LeadingDigits([c, 'z'][1..]) == [c];
    assert DecimalValue([c]) <= 9;
  }

  lemma OneDigitIsNumber(part: string)
    requires part != "" && IsDigit(part[0]) && (|part| == 1 || !IsDigit(part[1]))
    ensures Number(part).Some?
  {
    SmallNumber(part[0]);
    assert LeadingDigits(part) == [part[0]] == LeadingDigits([part[0]]);
  }

  /** A digit that starts no number is followed by another digit. */
  lemma LongNumber(part: string)
    requires part != "" && IsDigit(part[0]) && Number(part).None?
    ensures |part| > 1 && IsDigit(part[1])
    ensures CompareStrings([part[0]], part) == -1 && CompareStrings([part[0], 'z'], part) == 1
  {
    if |part| == 1 || !IsDigit(part[1]) {
      OneDigitIsNumber(part);
    }
    assert [part[0]][1..] == "" && [part[0], 'z'][1..] == ['z'];
    assert CompareStrings("", part[1..]) == -1 && CompareStrings(['z'], part[1..]) == 1;
  }

  lemma PrefixComparesEqual(more: seq<string>, q: seq<string>, k: nat)
    requires k <= |q| && AllNumbers(q[..k])
    ensures CompareFrom(Digits(q[..k]) + more, q, 0) == CompareFrom(Digits(q[..k]) + more, q, k)
  {
    var p := Digits(q[..k]) + more;
    DigitsArePlain(q[..k]);
    forall j: nat | j < k ensures CompareAt(p, q, j) == 0 {
      assert q[..k][j] == q[j] && p[j] == Digits(q[..k])[j] && q[j] in q[..k];
    }
    EqualUpTo(p, q, 0, k);
  }

  lemma Extended(d: seq<string>, part: string)
    requires (|d| >= 1 ==> Plain(d)) && AllNumbers(d)
    requires Number(part).Some? && (forall c | c in part :: IsPlainChar(c))
    ensures Plain(d + [part]) && AllNumbers(d + [part])
  {
    NumberStart(part);
  }

  /** Two plain versions that compare equal, on either side of an unstable version or one level with it. */
  lemma SplitPair(q: seq<string>, k: nat) returns (p1: seq<string>, p2: seq<string>)
    requires UnstableAt(q, k)
    ensures Plain(p1) && Plain(p2) && AllNumbers(p1) && AllNumbers(p2) && |p2| > k
    ensures CompareFrom(p1, p2, 0) == 0 && CompareFrom(p2, q, 0) == 1
    ensures if q[k] == "" then CompareFrom(p1, q, 0) <= 0 && (CompareFrom(p1, q, 0) == 0 <==> EmptyFrom(q, k))
            else CompareFrom(p1, q, 0) == -1
  {
    if q[k] != "" && IsDigit(q[k][0]) {
      p1, p2 := LongPair(q, k);
    } else {
      p1, p2 := ShortPair(q, k);
    }
  }

  /** Around a component too long: its first digit alone, and with a letter behind it. */
  lemma LongPair(q: seq<string>, k: nat) returns (p1: seq<string>, p2: seq<string>)
    requires k < |q| && AllNumbers(q[..k]) && Number(q[k]).None? && q[k] != "" && IsDigit(q[k][0])
    ensures Plain(p1) && Plain(p2) && AllNumbers(p1) && AllNumbers(p2) && |p2| > k
    ensures CompareFrom(p1, p2, 0) == 0 && CompareFrom(p1, q, 0) == -1 && CompareFrom(p2, q, 0) == 1
  {
    hide CompareFrom, Number, Plain, AllNumbers, CompareStrings, Digits;
    var d, c := Digits(q[..k]), q[k][0];
    DigitsArePlain(q[..k]);
    SmallNumber(c);
    LongNumber(q[k]);
    p1, p2 := d + [[c]], d + [[c, 'z']];
    Extended(d, [c]);
    Extended(d, [c, 'z']);
    PrefixComparesEqual([[c]], q, k);
    PrefixComparesEqual([[c, 'z']], q, k);
    CompareStep(p1, q, k);
    CompareStep(p2, q, k);
    NumbersAt(d);
    SameNumbersCompareEqual(p1, p2);
  }

  /** Around a component that is empty or low: nothing, and zero. */
  lemma ShortPair(q: seq<string>, k: nat) returns (p1: seq<string>, p2: seq<string>)
    requires 1 <= k < |q| && AllNumbers(q[..k]) && Number(q[k]).None? && (q[k] == "" || q[k][0] < '0')
    ensures Plain(p1) && Plain(p2) && AllNumbers(p1) && AllNumbers(p2) && |p2| > k
    ensures CompareFrom(p1, p2, 0) == 0 && CompareFrom(p2, q, 0) == 1
    ensures if q[k] == "" then CompareFrom(p1, q, 0) <= 0 && (CompareFrom(p1, q, 0) == 0 <==> EmptyFrom(q, k))
            else CompareFrom(p1, q, 0) == -1
  {
    hide CompareFrom, Number, Plain, AllNumbers, Digits;
    var d := Digits(q[..k]);
    DigitsArePlain(q[..k]);
    ZeroIsNumber();
    p1, p2 := d, d + ["0"];
    Extended(d, "0");
    PrefixComparesEqual([], q, k);
    assert d + [] == d;
    PrefixComparesEqual(["0"], q, k);
    CompareStep(p1, q, k);
    CompareStep(p2, q, k);
    MissingIsLeast(p1, q, k);
    NumbersAt(d);
    SameNumbersCompareEqual(p1, p2);
  }

  lemma NumbersAt(parts: seq<string>)
    requires AllNumbers(parts)
    ensures forall j: nat :: NumberAt(parts, j).Some?
  {
    hide Number;
  }

  lemma SameNumbersCompareEqual(p1: seq<string>, p2: seq<string>)
    requires forall j: nat :: NumberAt(p1, j).Some? && NumberAt(p1, j) == NumberAt(p2, j)
    ensures CompareFrom(p1, p2, 0) == 0
  {
    EqualEverywhere(p1, p2, 0);
  }

  lemma Built(parts: seq<string>)
    requires Plain(parts) && AllNumbers(parts)
    ensures IsNumeric(Join(parts, '.')) && Components(Join(parts, '.')) == parts
  {
    PlainComponents(parts);
  }

  /** The same, as versions. */
  lemma UnstablePair(version: string, k: nat) returns (v1: string, v2: string)
    requires UnstableAt(Components(version), k)
    ensures IsNumeric(v1) && IsNumeric(v2) && Compare(v1, v2) == 0 && Compare(v2, version) == 1
    ensures if Components(version)[k] == "" then
              Compare(v1, version) <= 0 && (Compare(v1, version) == 0 <==> EmptyFrom(Components(version), k))
            else Compare(v1, version) == -1
    ensures Components(version)[k] == "" ==> !EqualFold(v2, version)
  {
    hide Components, CompareFrom;
    var p1, p2 := SplitPair(Components(version), k);
    v1, v2 := Join(p1, '.'), Join(p2, '.');
    Built(p1);
    Built(p2);
    if Components(version)[k] == "" {
      PlainFoldsOnlyItself(p2, v2, version, k);
    }
  }

  lemma AllEqual(p: seq<string>, q: seq<string>)
    requires CompareFrom(p, q, 0) == 0
    ensures forall j: nat :: CompareAt(p, q, j) == 0
  {
    EqualEverywhere(p, q, 0);
  }

  lemma {:induction false} StableSame(p1: seq<string>, p2: seq<string>, q: seq<string>, i: nat)
    requires AllNumbers(p1) && AllNumbers(p2) && |p1| >= 1 && |p2| >= 1
    requires forall j: nat :: CompareAt(p1, p2, j) == 0
    requires forall k: nat :: !UnstableAt(q, k)
    requires AllNumbers(q[..if i <= |q| then i else |q|])
    ensures CompareFrom(p1, q, i) == CompareFrom(p2, q, i)
    decreases |p1| + |p2| + |q| - i
  {
    hide CompareFrom;
    CompareStep(p1, q, i);
    CompareStep(p2, q, i);
    if i >= |p1| + |p2| + |q| {
      PastTheEnd(p1, q, i);
      PastTheEnd(p2, q, i);
    } else {
      SameStep(p1, p2, q, i);
      if CompareAt(p1, q, i) == 0 {
        StableSame(p1, p2, q, i + 1);
      }
    }
  }

  lemma PastTheEnd(p: seq<string>, q: seq<string>, i: nat)
    requires i >= |p| + |q|
    ensures CompareFrom(p, q, i) == 0
  {
  }

  /** Equal numbers compare alike with a component that does not make the version unstable. */
  lemma SameStep(p1: seq<string>, p2: seq<string>, q: seq<string>, i: nat)
    requires AllNumbers(p1) && AllNumbers(p2) && |p1| >= 1 && |p2| >= 1
    requires CompareAt(p1, p2, i) == 0 && !UnstableAt(q, i)
    requires AllNumbers(q[..if i <= |q| then i else |q|])
    ensures CompareAt(p1, q, i) == CompareAt(p2, q, i)
    ensures CompareAt(p1, q, i) == 0 ==> AllNumbers(q[..if i + 1 <= |q| then i + 1 else |q|])
  {
    hide Number;
    NumbersOrMissing(p1, i);
    NumbersOrMissing(p2, i);
    if i < |q| {
      assert q[..i + 1] == q[..i] + [q[i]];
    }
  }

  lemma NumbersOrMissing(p: seq<string>, i: nat)
    requires AllNumbers(p) && |p| >= 1
    ensures NumberAt(p, i).Some?
    ensures PartAt(p, i) == "" || IsDigit(PartAt(p, i)[0])
    ensures i == 0 ==> PartAt(p, i) != ""
  {
    if i < |p| {
      assert p[i] in p;
      NumberStart(p[i]);
    }
  }

  /** A version compares differently with equal numeric versions exactly when it is unstable. */
  lemma ComparesDifferentlyIff(version: string)
    ensures ComparesDifferently(version) <==> Unstable(version)
  {
    hide CompareFrom, Components;
    if Unstable(version) {
      var k :| 0 <= k < |Components(version)| && UnstableAt(Components(version), k);
      var v1, v2 := UnstablePair(version, k);
    } else {
      forall v1, v2 | IsNumeric(v1) && IsNumeric(v2) && Compare(v1, v2) == 0
        ensures Compare(v1, version) == Compare(v2, version)
      {
        StableComparesAlike(v1, v2, version);
      }
    }
  }

  lemma StableComparesAlike(v1: string, v2: string, version: string)
    requires IsNumeric(v1) && IsNumeric(v2) && Compare(v1, v2) == 0 && !Unstable(version)
    ensures Compare(v1, version) == Compare(v2, version)
  {
    hide CompareFrom;
    AllEqual(Components(v1), Components(v2));
    assert forall k: nat :: !UnstableAt(Components(version), k);
    StableSame(Components(v1), Components(v2), Components(version), 0);
  }

  // ----- Which versions have a place among the numeric ones ---------------------------------------

  /** The version fits into the order of the numeric versions a and b, wherever they put it. */
  predicate Fits(a: string, version: string, b: string) {
    && (Compare(a, version) <= 0 && Compare(version, b) <= 0 ==> Compare(a, b) <= 0)
    && (Compare(a, b) <= 0 && Compare(b, version) <= 0 ==> Compare(a, version) <= 0)
    && (Compare(version, a) <= 0 && Compare(a, b) <= 0 ==> Compare(version, b) <= 0)
  }

  /** Behind its first word a version does not matter to numeric versions. */
  lemma {:induction false} WordDecides(p: seq<string>, q: seq<string>, k: nat, i: nat)
    requires AllNumbers(p) && |p| >= 1 && i <= k < |q| && Number(q[k]).None? && IsWord(q[k])
    ensures CompareFrom(p, q, i) == CompareFrom(p, q[..k + 1], i)
    decreases k - i
  {
    hide CompareFrom, Number;
    CompareStep(p, q, i);
    CompareStep(p, q[..k + 1], i);
    NumbersOrMissing(p, i);
    if i < k {
      WordDecides(p, q, k, i + 1);
    }
  }

  /** A stable version compares with numeric ones as some ordered components do, or is before them all. */
  lemma PlaceOf(q: seq<string>) returns (t: seq<string>, k: nat)
    requires forall k: nat :: !UnstableAt(q, k)
    ensures AllNumbers(q) ==> t == q
    ensures !AllNumbers(q) ==> k < |q| && Number(q[k]).None? && AllNumbers(q[..k])
    ensures !AllNumbers(q) && IsWord(q[k]) ==> t == q[..k + 1]
    ensures !AllNumbers(q) && !IsWord(q[k]) ==> k == 0 && (q[0] == "" || q[0][0] < '0')
    ensures AllNumbers(q) || IsWord(q[k]) ==> Orderly(t)
  {
    hide Number;
    t, k := q, 0;
    if !AllNumbers(q) {
      k := FirstBad(q);
      t := q[..k + 1];
      assert t == q[..k] + [q[k]];
      assert !UnstableAt(q, k);
    }
  }

  lemma StableFits(a: string, version: string, b: string)
    requires IsNumeric(a) && IsNumeric(b) && !Unstable(version)
    ensures Fits(a, version, b)
  {
    hide CompareFrom, Number, Components;
    var p, r, q := Components(a), Components(b), Components(version);
    assert forall k: nat :: !UnstableAt(q, k);
    var t, k := PlaceOf(q);
    CompareAntisymmetric(a, version);
    CompareAntisymmetric(b, version);
    CompareAntisymmetric(a, b);
    if AllNumbers(q) || IsWord(q[k]) {
      if !AllNumbers(q) {
        WordDecides(p, q, k, 0);
        WordDecides(r, q, k, 0);
      }
      CompareFromAntisymmetric(p, t, 0);
      CompareFromAntisymmetric(r, t, 0);
      OrderlyTransitive(p, t, r, 0);
      OrderlyTransitive(p, r, t, 0);
      OrderlyTransitive(t, p, r, 0);
    } else {
      BelowNumbers(p, q);
      BelowNumbers(r, q);
    }
  }

  lemma BelowNumbers(p: seq<string>, q: seq<string>)
    requires AllNumbers(p) && |p| >= 1 && |q| >= 1 && Number(q[0]).None? && (q[0] == "" || q[0][0] < '0')
    ensures CompareFrom(p, q, 0) == 1
  {
    hide Number;
    NumbersOrMissing(p, 0);
  }

  /** A version has a place in the order of the numeric versions exactly when it is not unstable. */
  lemma HasPlaceIff(version: string)
    ensures (forall a, b | IsNumeric(a) && IsNumeric(b) :: Fits(a, version, b)) <==> !Unstable(version)
  {
    hide Compare, Components;
    if Unstable(version) {
      var k :| 0 <= k < |Components(version)| && UnstableAt(Components(version), k);
      var v1, v2 := UnstablePair(version, k);
      CompareAntisymmetric(v1, v2);
      assert !Fits(v2, version, v1);
    } else {
      forall a, b | IsNumeric(a) && IsNumeric(b) ensures Fits(a, version, b) {
        StableFits(a, version, b);
      }
    }
  }

  // ----- Exact versions: only these shapes ---------------------------------------------------------

  lemma SameExactAnswer(v1: string, v2: string, version: string)
    requires IsNumeric(v1) && IsNumeric(v2) && IsNumeric(version) && Compare(v1, v2) == 0
    ensures ExactMatch(v1, version) == ExactMatch(v2, version)
  {
    hide Compare, IsNumeric, IsOrdered, EqualFold;
    NumericIsOrdered(v1);
    NumericIsOrdered(v2);
    NumericIsOrdered(version);
    OrderedVersionsArePreordered(v1, v2, version);
    if EqualFold(v1, version) { FoldedVersionsAreEqual(v1, version); }
    if EqualFold(v2, version) { FoldedVersionsAreEqual(v2, version); }
  }

  lemma ComparesEqualOnlyIf(host: string, version: string)
    requires IsNumeric(host) && !IsNumeric(version) && Compare(host, version) == 0
    ensures EndsEmpty(version)
  {
    var p, q := Components(host), Components(version);
    var k := FirstBad(q);
    EqualEverywhere(p, q, 0);
    assert CompareAt(p, q, k) == 0 && PartAt(p, k) == q[k];
    assert forall i | 0 <= i < |p| :: Number(p[i]).Some?;
    assert k >= |p|;
    forall j | k <= j < |q| ensures q[j] == "" || Number(q[j]) == Some(0) {
      assert CompareAt(p, q, j) == 0;
    }
    assert EmptyFrom(q, k);
  }

  lemma FoldsEqualOnlyIf(host: string, version: string)
    requires IsNumeric(host) && !IsNumeric(version) && EqualFold(host, version)
    ensures CapitalPrefix(version)
  {
    hide Split, Upper, TrimLeft, TrimRight, Number;
    var t1, t2 := TrimSpace(host), TrimSpace(version);
    UpperTrimLeft(host, version);
    UpperTrimRight(TrimLeft(host, IsSpace), TrimLeft(version, IsSpace));
    SameUpperAt(t1, t2);
    NumericStart(WithoutV(t1));
    if t1[0] == 'v' {
      SameUpperPiece(t1, t2, 1, |t1|);
      assert t2[0] == 'v' || t2[0] == 'V';
      SameNumbersWhenFolded(t1[1..], t2[1..]);
    } else {
      SameNumbersWhenFolded(t1, t2);
    }
  }

  lemma SameNumbersWhenFolded(s: string, t: string)
    requires SameUpper(s, t) && AllNumbers(Split(s, '.'))
    ensures AllNumbers(Split(t, '.'))
  {
    hide Split, SameUpper;
    UpperSplit(s, t);
    var p, q := Split(s, '.'), Split(t, '.');
    forall x | x in q ensures Number(x).Some? {
      var i :| 0 <= i < |q| && q[i] == x;
      UpperDigits(p[i], q[i]);
      assert p[i] in p;
    }
  }

  // ----- And all of them ----------------------------------------------------------------------------

  lemma EndsEmptyTells(version: string)
    requires EndsEmpty(version)
    ensures TellsApart(version)
  {
    hide Components, Compare;
    var k :| 1 <= k < |Components(version)| && EmptyFrom(Components(version), k);
    ZeroIsNumber();
    var v1, v2 := UnstablePair(version, k);
  }

  lemma ZeroIsNumber()
    ensures Number("0") == Some(0) && AllDigits("0") && Number("") == None && CompareStrings("0", "") == 1
  {
  }

  /** A plain version folds onto no version with an empty component at a place where it has one. */
  lemma PlainFoldsOnlyItself(parts: seq<string>, plain: string, version: string, k: nat)
    requires Plain(parts) && plain == Join(parts, '.') && k < |parts|
    requires k < |Components(version)| && Components(version)[k] == ""
    ensures !EqualFold(plain, version)
  {
    hide Split, Join, Upper, Components, Plain, IsPlainChar;
    JoinChars(parts);
    PlainComponents(parts);
    PlainPart(parts, k);
    if EqualFold(plain, version) {
      FoldedComponents(plain, version);
      SameUpperAt(parts[k], "");
      assert false;
    }
  }

  lemma PlainPart(parts: seq<string>, k: nat)
    requires Plain(parts) && k < |parts|
    ensures parts[k] != ""
  {
    assert parts[k] in parts;
  }

  lemma FoldedComponents(plain: string, version: string)
    requires SameUpper(plain, version) && plain != "" && IsDigit(plain[0]) && IsPlainChar(plain[|plain| - 1])
    ensures |Components(plain)| == |Components(version)|
    ensures forall i | 0 <= i < |Components(plain)| :: SameUpper(Components(plain)[i], Components(version)[i])
  {
    hide Split, SameUpper, TrimLeft, TrimRight;
    FoldedTrim(plain, version);
    SameUpperAt(plain, TrimSpace(version));
    UpperSplit(plain, TrimSpace(version));
  }

  lemma FoldedTrim(plain: string, version: string)
    requires SameUpper(plain, version) && plain != "" && IsDigit(plain[0]) && IsPlainChar(plain[|plain| - 1])
    ensures TrimSpace(plain) == plain && SameUpper(plain, TrimSpace(version))
  {
    hide SameUpper, TrimLeft, TrimRight;
    UpperTrimLeft(plain, version);
    UpperTrimRight(TrimLeft(plain, IsSpace), TrimLeft(version, IsSpace));
    TrimKeeps(plain, IsSpace);
  }

  lemma CapitalPrefixTells(version: string)
    requires CapitalPrefix(version)
    ensures TellsApart(version)
  {
    hide Split, Join, Digits, Plain, IsPlainChar, Upper, TrimLeft, TrimRight, CompareFrom, Number;
    var parts := Split(TrimSpace(version)[1..], '.');
    var v1 := Lowered(version);
    DigitsArePlain(parts);
    Built(Digits(parts));
    JoinChars(Digits(parts));
    var v2 := Join(Digits(parts), '.');
    DigitsCompareEqual(parts);
    CapitalDiffers(v2, version);
    CapitalFoldsOnV(v2, version);
  }

  lemma DigitsCompareEqual(parts: seq<string>)
    requires AllNumbers(parts)
    ensures CompareFrom(parts, Digits(parts), 0) == 0
  {
    DigitsArePlain(parts);
    forall j: nat ensures NumberAt(parts, j).Some? && NumberAt(parts, j) == NumberAt(Digits(parts), j) {
      if j < |parts| {
        assert parts[j] in parts;
      }
    }
    SameNumbersCompareEqual(parts, Digits(parts));
  }

  lemma CapitalDiffers(plain: string, version: string)
    requires IsNumeric(plain) && CapitalPrefix(version)
    ensures Compare(plain, version) != 0
  {
    var p, q, t := Components(plain), Components(version), TrimSpace(version);
    assert q == Split(t, '.');
    assert q[0] != "" && q[0][0] == 'V';
    assert p[0] in p && Number(p[0]).Some?;
    assert p[0] != "" && IsDigit(p[0][0]);
    assert CompareAt(p, q, 0) != 0;
    EqualEverywhere(p, q, 0);
  }

  lemma CapitalFoldsOnV(plain: string, version: string)
    requires plain != "" && IsDigit(plain[0]) && IsPlainChar(plain[|plain| - 1]) && CapitalPrefix(version)
    ensures !EqualFold(plain, version)
  {
    if EqualFold(plain, version) {
      FoldedTrim(plain, version);
      SameUpperAt(plain, TrimSpace(version));
      assert false;
    }
  }

  /** The version with its capital V made small: numeric, with the same upper case. */
  lemma Lowered(version: string) returns (small: string)
    requires CapitalPrefix(version)
    ensures EqualFold(small, version) && IsNumeric(small)
    ensures Components(small) == Split(TrimSpace(version)[1..], '.')
  {
    hide Split, TrimSpace, Upper;
    var t := TrimSpace(version);
    var before, after := Surroundings(version);
    var mid := "v" + t[1..];
    small := before + mid + after;
    assert t[1..] != "" by { NumericStart(t[1..]); }
    assert mid[|mid| - 1] == t[|t| - 1];
    assert TrimSpace(small) == mid by { TrimSpaceAround(before, mid, after); }
    assert WithoutV(mid) == t[1..];
    SameUpperIf(small, version);
  }

  /** What trimming cuts off. */
  lemma Surroundings(version: string) returns (before: string, after: string)
    requires TrimSpace(version) != ""
    ensures version == before + TrimSpace(version) + after && forall c | c in before + after :: IsSpace(c)
    ensures !IsSpace(TrimSpace(version)[|TrimSpace(version)| - 1])
  {
    var k, l := TrimIs(version, IsSpace);
    before, after := version[..k], version[l..];
    assert version == version[..k] + version[k..l] + version[l..];
  }

  lemma TrimSpaceAround(before: string, mid: string, after: string)
    requires forall c | c in before + after :: IsSpace(c)
    requires mid != "" && !IsSpace(mid[0]) && !IsSpace(mid[|mid| - 1])
    ensures TrimSpace(before + mid + after) == mid
  {
    TrimAround(before, mid, after, IsSpace);
  }

  lemma SameUpperIf(s: string, t: string)
    requires |s| == |t| && forall i | 0 <= i < |s| :: UpperChar(s[i]) == UpperChar(t[i])
    ensures Upper(s) == Upper(t)
  {
  }

  /**
    A version criterion tells equal host versions apart exactly when it ends empty or has a capital prefix;
    otherwise hosts that compare equal get the same answer.
  */
  lemma TellsApartIff(version: string)
    ensures TellsApart(version) <==> EndsEmpty(version) || CapitalPrefix(version)
  {
    hide EndsEmpty, CapitalPrefix, IsNumeric, Compare;
    if EndsEmpty(version) { EndsEmptyTells(version); }
    if CapitalPrefix(version) { CapitalPrefixTells(version); }
    if TellsApart(version) {
      var v1, v2 :| IsNumeric(v1) && IsNumeric(v2) && Compare(v1, v2) == 0 && ExactMatch(v1, version) && !ExactMatch(v2, version);
      if IsNumeric(version) {
        SameExactAnswer(v1, v2, version);
      } else if Compare(v1, version) == 0 {
        ComparesEqualOnlyIf(v1, version);
      } else {
        FoldsEqualOnlyIf(v1, version);
      }
    }
  }

  // ----- Bounds -------------------------------------------------------------------------------------

  datatype Bound = StartIncluding | StartExcluding | EndIncluding | EndExcluding

  predicate Accepts(kind: Bound, version: string, bound: string) {
    var c := Compare(version, bound);
    match kind
    case StartIncluding => c >= 0
    case StartExcluding => c > 0
    case EndIncluding => c <= 0
    case EndExcluding => c < 0
  }

  ghost predicate BoundTellsApart(kind: Bound, bound: string) {
    exists v1, v2 :: IsNumeric(v1) && IsNumeric(v2) && Compare(v1, v2) == 0
                     && Accepts(kind, v1, bound) && !Accepts(kind, v2, bound)
  }

  /** An unstable bound tells equal hosts apart, but for one that ends empty where being level and being after are the same. */
  predicate UnstableBound(kind: Bound, bound: string) {
    Unstable(bound) && (kind == StartIncluding || kind == EndExcluding ==> !EndsEmpty(bound))
  }

  /** A bound that ends empty has a numeric version at or below it exactly when that is at or below its numbers. */
  lemma EndsEmptyIsFloor(p: seq<string>, q: seq<string>, k: nat)
    requires AllNumbers(p) && |p| >= 1 && 1 <= k < |q| && EmptyFrom(q, k)
    ensures CompareFrom(p, q, 0) >= 0 <==> CompareFrom(p, q[..k], 0) >= 0
  {
    FloorFrom(p, q, k, 0);
  }

  lemma {:induction false} FloorFrom(p: seq<string>, q: seq<string>, k: nat, i: nat)
    requires AllNumbers(p) && |p| >= 1 && 1 <= k < |q| && EmptyFrom(q, k)
    ensures CompareFrom(p, q, i) >= 0 <==> CompareFrom(p, q[..k], i) >= 0
    ensures i >= k ==> CompareFrom(p, q, i) >= 0 && CompareFrom(p, q[..k], i) >= 0
    decreases |p| + |q| - i
  {
    hide CompareFrom;
    CompareStep(p, q, i);
    CompareStep(p, q[..k], i);
    if i >= |p| + |q| {
      PastTheEnd(p, q, i);
      PastTheEnd(p, q[..k], i);
    } else {
      FloorFrom(p, q, k, i + 1);
      FloorAt(p, q, k, i);
    }
  }

  lemma FloorAt(p: seq<string>, q: seq<string>, k: nat, i: nat)
    requires AllNumbers(p) && |p| >= 1 && 1 <= k < |q| && EmptyFrom(q, k)
    ensures i < k ==> CompareAt(p, q, i) == CompareAt(p, q[..k], i)
    ensures i >= k ==> CompareAt(p, q, i) >= 0 && CompareAt(p, q[..k], i) >= 0
  {
    hide Number;
    ZeroIsNumber();
    NumbersOrMissing(p, i);
  }

  lemma EndsEmptyAcceptsAlike(v1: string, v2: string, bound: string)
    requires IsNumeric(v1) && IsNumeric(v2) && Compare(v1, v2) == 0 && EndsEmpty(bound)
    ensures Compare(v1, bound) >= 0 <==> Compare(v2, bound) >= 0
  {
    hide CompareFrom, Number;
    var p1, p2, q := Components(v1), Components(v2), Components(bound);
    var k :| 1 <= k < |q| && EmptyFrom(q, k);
    EndsEmptyIsFloor(p1, q, k);
    EndsEmptyIsFloor(p2, q, k);
    OrderlyTransitive(p1, p2, q[..k], 0);
  }

  /** A bound accepts one of two equal numeric versions and not the other exactly when it is such an unstable bound. */
  lemma BoundTellsApartIff(kind: Bound, bound: string)
    ensures BoundTellsApart(kind, bound) <==> UnstableBound(kind, bound)
  {
    hide Compare, EndsEmpty, IsNumeric, Unstable;
    if UnstableBound(kind, bound) {
      UnstableBoundTells(kind, bound);
    } else {
      forall v1, v2 | IsNumeric(v1) && IsNumeric(v2) && Compare(v1, v2) == 0
        ensures Accepts(kind, v1, bound) == Accepts(kind, v2, bound)
      {
        StableBoundAcceptsAlike(kind, v1, v2, bound);
      }
    }
  }

  lemma UnstableBoundTells(kind: Bound, bound: string)
    requires UnstableBound(kind, bound)
    ensures BoundTellsApart(kind, bound)
  {
    hide Compare, IsNumeric, Components;
    var k :| 0 <= k < |Components(bound)| && UnstableAt(Components(bound), k);
    var v1, v2 := UnstablePair(bound, k);
    CompareAntisymmetric(v1, v2);
    assert Accepts(kind, v1, bound) != Accepts(kind, v2, bound);
  }

  lemma StableBoundAcceptsAlike(kind: Bound, v1: string, v2: string, bound: string)
    requires IsNumeric(v1) && IsNumeric(v2) && Compare(v1, v2) == 0 && !UnstableBound(kind, bound)
    ensures Accepts(kind, v1, bound) == Accepts(kind, v2, bound)
  {
    hide Compare, IsNumeric, EndsEmpty, Unstable;
    if Unstable(bound) {
      EndsEmptyAcceptsAlike(v1, v2, bound);
    } else {
      StableComparesAlike(v1, v2, bound);
    }
  }

  // ----- Whole criteria -----------------------------------------------------------------------------

  function BoundOf(kind: Bound, m: CpeMatch): string {
    match kind
    case StartIncluding => m.versionStartIncluding
    case StartExcluding => m.versionStartExcluding
    case EndIncluding => m.versionEndIncluding
    case EndExcluding => m.versionEndExcluding
  }

  /** No bound of the criterion, or its own version if it has none, has a shape that tells equal hosts apart. */
  predicate StableCriterion(m: CpeMatch) {
    if HasRange(m) then
      forall kind: Bound :: BoundOf(kind, m) != "" ==> !UnstableBound(kind, BoundOf(kind, m))
    else
      match Parse(m.criteria)
      case Ok(crit) => crit.version == "*" || crit.version == "-" || !(EndsEmpty(crit.version) || CapitalPrefix(crit.version))
      case Err(_) => true
  }

  lemma InRangeIs(version: string, m: CpeMatch)
    ensures InRange(version, m) <==> forall kind: Bound :: BoundOf(kind, m) != "" ==> Accepts(kind, version, BoundOf(kind, m))
  {
    hide Compare;
    assert BoundOf(StartIncluding, m) == m.versionStartIncluding && BoundOf(StartExcluding, m) == m.versionStartExcluding;
    assert BoundOf(EndIncluding, m) == m.versionEndIncluding && BoundOf(EndExcluding, m) == m.versionEndExcluding;
  }

  lemma StableAnswers(v1: string, v2: string, m: CpeMatch)
    requires IsNumeric(v1) && IsNumeric(v2) && Compare(v1, v2) == 0 && StableCriterion(m)
    ensures CheckVersionBounds(v1, m) == CheckVersionBounds(v2, m)
  {
    hide Compare, IsNumeric, Parse, ExactMatch, InRange, Accepts, UnstableBound, EndsEmpty, CapitalPrefix;
    KnownNumeric(v1);
    KnownNumeric(v2);
    if HasRange(m) {
      InRangeIs(v1, m);
      InRangeIs(v2, m);
      forall kind: Bound | BoundOf(kind, m) != ""
        ensures Accepts(kind, v1, BoundOf(kind, m)) == Accepts(kind, v2, BoundOf(kind, m))
      {
        StableBoundAcceptsAlike(kind, v1, v2, BoundOf(kind, m));
      }
    } else if Parse(m.criteria).Ok? {
      TellsApartIff(Parse(m.criteria).value.version);
      CompareAntisymmetric(v1, v2);
    }
  }

  lemma KnownNumeric(version: string)
    requires IsNumeric(version)
    ensures version != "" && version != "*"
  {
    hide Components;
    NumericIsOrdered(version);
    OrderedIsKnown(version);
  }

  /** Host versions that compare equal, such as "1.2" and "1.2.0", get the same answer from every stable criterion. */
  lemma EqualVersionsSameAnswer(host: CPE, version: string, m: CpeMatch)
    requires IsNumeric(host.version) && IsNumeric(version) && StableCriterion(m)
    requires Compare(host.version, version) == 0
    ensures CheckVersionBounds(host.version, m) == CheckVersionBounds(version, m)
    ensures MatchesCPE(host, m) == MatchesCPE(host.(version := version), m)
  {
    hide Compare, IsNumeric, Parse, SimilarNames, StableCriterion, CheckVersionBounds;
    StableAnswers(host.version, version, m);
  }

  ghost predicate CriterionTellsApart(m: CpeMatch) {
    exists v1, v2 :: IsNumeric(v1) && IsNumeric(v2) && Compare(v1, v2) == 0 && CheckVersionBounds(v1, m) && !CheckVersionBounds(v2, m)
  }

  predicate AtMostOneBound(m: CpeMatch) {
    forall kind: Bound, other: Bound :: BoundOf(kind, m) != "" && BoundOf(other, m) != "" ==> kind == other
  }

  /** With one bound, or a version of its own, a criterion tells equal hosts apart exactly when it is not stable. */
  lemma CriterionTellsApartIff(m: CpeMatch)
    requires AtMostOneBound(m)
    ensures CriterionTellsApart(m) <==> !StableCriterion(m)
  {
    hide Compare, IsNumeric, Parse, CheckVersionBounds, StableCriterion;
    if StableCriterion(m) {
      forall v1, v2 | IsNumeric(v1) && IsNumeric(v2) && Compare(v1, v2) == 0
        ensures CheckVersionBounds(v1, m) == CheckVersionBounds(v2, m)
      {
        StableAnswers(v1, v2, m);
      }
    } else {
      UnstableTells(m);
    }
  }

  lemma UnstableTells(m: CpeMatch)
    requires AtMostOneBound(m) && !StableCriterion(m)
    ensures CriterionTellsApart(m)
  {
    hide Compare, IsNumeric, Parse, ExactMatch, InRange, Accepts, UnstableBound, EndsEmpty, CapitalPrefix;
    if HasRange(m) {
      var kind: Bound :| BoundOf(kind, m) != "" && UnstableBound(kind, BoundOf(kind, m));
      BoundTellsApartIff(kind, BoundOf(kind, m));
      var v1, v2 :| IsNumeric(v1) && IsNumeric(v2) && Compare(v1, v2) == 0
                    && Accepts(kind, v1, BoundOf(kind, m)) && !Accepts(kind, v2, BoundOf(kind, m));
      InRangeIs(v1, m);
      InRangeIs(v2, m);
      KnownNumeric(v1);
      KnownNumeric(v2);
    } else {
      var version := Parse(m.criteria).value.version;
      TellsApartIff(version);
      var v1, v2 :| IsNumeric(v1) && IsNumeric(v2) && Compare(v1, v2) == 0 && ExactMatch(v1, version) && !ExactMatch(v2, version);
      KnownNumeric(v1);
      KnownNumeric(v2);
    }
  }

  // ----- Criteria that do tell them apart -------------------------------------------------------------

  const ONE_DOT := "cpe:2.3:a:x:y:1."

  lemma ParsesOneDot()
    ensures Parse(ONE_DOT) == Ok(CPE("a", "x", "y", "1.", "", "", "", "", "", "", "", "", ""))
  {
    hide Join, Split;
    JoinsToOneDot();
    SplitJoin(["cpe", "2.3", "a", "x", "y", "1."], ':');
  }

  lemma JoinsToOneDot()
    ensures Join(["cpe", "2.3", "a", "x", "y", "1."], ':') == ONE_DOT
  {
    assert Join(["cpe", "2.3", "a", "x", "y", "1."], ':') == ONE_DOT by {
      assert Join(["y", "1."], ':') == "y:1.";
      assert Join(["x", "y", "1."], ':') == "x:y:1.";
      assert Join(["a", "x", "y", "1."], ':') == "a:x:y:1.";
      assert Join(["2.3", "a", "x", "y", "1."], ':') == "2.3:a:x:y:1.";
    }
  }

  /** A criterion whose own version ends in an empty component does tell equal host versions apart. */
  lemma EmptyComponentTellsApart()
    ensures var m := CpeMatch(true, ONE_DOT, "", "", "", "");
            Compare("1", "1.0") == 0 && CheckVersionBounds("1", m) && !CheckVersionBounds("1.0", m)
  {
    hide Compare, Parse;
    ParsesOneDot();
    EmptyComponentsBreakEquality();
    CompareAntisymmetric("1.", "1");
    CompareAntisymmetric("1.", "1.0");
  }

  /** So does a bound of "1.". */
  lemma EmptyBoundTellsApart()
    ensures var m := CpeMatch(true, "", "", "", "1.", "");
            Compare("1", "1.0") == 0 && CheckVersionBounds("1", m) && !CheckVersionBounds("1.0", m)
  {
    hide Compare, Parse;
    EmptyComponentsBreakEquality();
    CompareAntisymmetric("1.", "1");
    CompareAntisymmetric("1.", "1.0");
  }
}
