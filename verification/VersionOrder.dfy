/**
  What the version comparison orders: all strings antisymmetrically, numeric versions as numbers, and
  versions of numbers and words as a total preorder.
*/
module VersionOrder {
  import opened Prelude
  import opened Strings
  import opened Versions

  lemma CompareAtAntisymmetric(parts1: seq<string>, parts2: seq<string>, i: nat)
    ensures CompareAt(parts2, parts1, i) == -CompareAt(parts1, parts2, i)
  {
    CompareStringsAntisymmetric(PartAt(parts1, i), PartAt(parts2, i));
  }

  lemma {:induction false} CompareFromAntisymmetric(parts1: seq<string>, parts2: seq<string>, i: nat)
    ensures CompareFrom(parts2, parts1, i) == -CompareFrom(parts1, parts2, i)
    decreases MaxLength(parts1, parts2) - i
  {
    hide CompareAt;
    if i < MaxLength(parts1, parts2) {
      CompareAtAntisymmetric(parts1, parts2, i);
      CompareFromAntisymmetric(parts1, parts2, i + 1);
    }
  }

  /** Swapping the versions turns the answer round, for all strings. */
  lemma CompareAntisymmetric(v1: string, v2: string)
    ensures Compare(v2, v1) == -Compare(v1, v2) && -1 <= Compare(v1, v2) <= 1
  {
    hide CompareFrom;
    CompareFromAntisymmetric(Components(v1), Components(v2), 0);
    CompareFromRange(Components(v1), Components(v2), 0);
  }

  lemma {:induction false} CompareFromRange(parts1: seq<string>, parts2: seq<string>, i: nat)
    ensures -1 <= CompareFrom(parts1, parts2, i) <= 1
    decreases MaxLength(parts1, parts2) - i
  {
    if i < MaxLength(parts1, parts2) {
      CompareFromRange(parts1, parts2, i + 1);
    }
  }

  // ----- Numeric versions -------------------------------------------------------------------------

  /** Every component starts with a number that fits 64 bits. */
  predicate AllNumbers(parts: seq<string>) {
    forall p | p in parts :: Number(p).Some?
  }

  predicate IsNumeric(version: string) {
    AllNumbers(Components(version))
  }

  /** The number at a place of a numeric version; zero past its end. */
  function At(version: string, i: nat): nat
    requires IsNumeric(version)
  {
    var parts := Components(version);
    if i < |parts| then Number(parts[i]).value else 0
  }

  /** The first place where the versions differ has the smaller number in v1. */
  ghost predicate Before(v1: string, v2: string)
    requires IsNumeric(v1) && IsNumeric(v2)
  {
    exists k: nat :: FirstDifference(v1, v2, k) && At(v1, k) < At(v2, k)
  }

  ghost predicate FirstDifference(v1: string, v2: string, k: nat)
    requires IsNumeric(v1) && IsNumeric(v2)
  {
    At(v1, k) != At(v2, k) && forall j: nat | j < k :: At(v1, j) == At(v2, j)
  }

  ghost predicate SameNumbers(v1: string, v2: string)
    requires IsNumeric(v1) && IsNumeric(v2)
  {
    forall j: nat :: At(v1, j) == At(v2, j)
  }

  lemma CompareAtNumbers(v1: string, v2: string, i: nat)
    requires IsNumeric(v1) && IsNumeric(v2)
    ensures CompareAt(Components(v1), Components(v2), i) == Sign(At(v1, i) - At(v2, i))
    ensures i >= MaxLength(Components(v1), Components(v2)) ==> At(v1, i) == At(v2, i)
  {
    hide Components, Number, CompareStrings;
  }

  lemma {:induction false} CompareFromNumbers(v1: string, v2: string, i: nat)
    requires IsNumeric(v1) && IsNumeric(v2)
    requires forall j: nat | j < i :: At(v1, j) == At(v2, j)
    ensures var c := CompareFrom(Components(v1), Components(v2), i);
            && (c == 0 <==> SameNumbers(v1, v2))
            && (c != 0 ==> exists k: nat :: FirstDifference(v1, v2, k) && c == Sign(At(v1, k) - At(v2, k)))
    decreases MaxLength(Components(v1), Components(v2)) - i
  {
    hide CompareAt, Components, IsNumeric, At;
    CompareAtNumbers(v1, v2, i);
    if i < MaxLength(Components(v1), Components(v2)) {
      if At(v1, i) == At(v2, i) {
        CompareFromNumbers(v1, v2, i + 1);
      } else {
        assert FirstDifference(v1, v2, i);
      }
    } else {
      forall j: nat ensures At(v1, j) == At(v2, j) {
        CompareAtNumbers(v1, v2, j);
      }
    }
  }

  /** On numeric versions the comparison is the dictionary order of their numbers, padded with zeros. */
  lemma ComparesAsNumbers(v1: string, v2: string)
    requires IsNumeric(v1) && IsNumeric(v2)
    ensures Compare(v1, v2) < 0 <==> Before(v1, v2)
    ensures Compare(v1, v2) == 0 <==> SameNumbers(v1, v2)
    ensures Compare(v1, v2) > 0 <==> Before(v2, v1)
  {
    hide CompareFrom, IsNumeric, At, Components;
    CompareFromNumbers(v1, v2, 0);
    if Compare(v1, v2) != 0 {
      var k: nat :| FirstDifference(v1, v2, k) && Compare(v1, v2) == Sign(At(v1, k) - At(v2, k));
      assert FirstDifference(v2, v1, k);
      FirstDifferenceUnique(v1, v2, k);
    }
  }

  lemma FirstDifferenceUnique(v1: string, v2: string, k: nat)
    requires IsNumeric(v1) && IsNumeric(v2) && FirstDifference(v1, v2, k)
    ensures forall l: nat | FirstDifference(v1, v2, l) || FirstDifference(v2, v1, l) :: l == k
  {
    hide At, IsNumeric;
  }

  // ----- Numbers and words ------------------------------------------------------------------------

  /** A component that starts above the digits, such as "rc1". */
  predicate IsWord(part: string) {
    part != "" && part[0] > '9'
  }

  predicate Orderly(parts: seq<string>) {
    forall p | p in parts :: Number(p).Some? || IsWord(p)
  }

  /** Every component is a number that fits 64 bits or a word: "1.2.rc1". */
  predicate IsOrdered(version: string) {
    Orderly(Components(version))
  }

  /** What counts of a component; a missing one is zero. */
  datatype Rank = Num(value: nat) | Word(text: string)

  function RankAt(parts: seq<string>, i: nat): Rank
    requires Orderly(parts)
  {
    if i >= |parts| then Num(0) else if Number(parts[i]).Some? then Num(Number(parts[i]).value) else Word(parts[i])
  }

  /** Numbers come before words. */
  function CompareRanks(a: Rank, b: Rank): int {
    match (a, b)
    case (Num(m), Num(n)) => Sign(m - n)
    case (Num(_), Word(_)) => -1
    case (Word(_), Num(_)) => 1
    case (Word(s), Word(t)) => CompareStrings(s, t)
  }

  lemma NumberStart(part: string)
    requires Number(part).Some?
    ensures part != "" && IsDigit(part[0])
  {
  }

  lemma CompareAtRanks(parts1: seq<string>, parts2: seq<string>, i: nat)
    requires Orderly(parts1) && Orderly(parts2)
    ensures CompareAt(parts1, parts2, i) == CompareRanks(RankAt(parts1, i), RankAt(parts2, i))
  {
    hide Number;
    if i < |parts1| && Number(parts1[i]).Some? { NumberStart(parts1[i]); }
    if i < |parts2| && Number(parts2[i]).Some? { NumberStart(parts2[i]); }
  }

  lemma CompareRanksTransitive(a: Rank, b: Rank, c: Rank)
    ensures CompareRanks(a, b) <= 0 && CompareRanks(b, c) <= 0 ==> CompareRanks(a, c) <= 0
    ensures CompareRanks(a, b) == 0 <==> a == b
    ensures CompareRanks(a, b) <= 0 && CompareRanks(b, c) <= 0 && CompareRanks(a, c) == 0 ==> a == b == c
  {
    hide CompareStrings;
    if a.Word? && b.Word? && c.Word? {
      CompareStringsTransitive(a.text, b.text, c.text);
    }
  }

  /** One step of the comparison, past the ends too. */
  lemma CompareStep(parts1: seq<string>, parts2: seq<string>, i: nat)
    ensures CompareFrom(parts1, parts2, i)
         == if CompareAt(parts1, parts2, i) != 0 then CompareAt(parts1, parts2, i) else CompareFrom(parts1, parts2, i + 1)
  {
  }

  lemma {:induction false} OrderlyTransitive(p: seq<string>, q: seq<string>, r: seq<string>, i: nat)
    requires Orderly(p) && Orderly(q) && Orderly(r)
    ensures CompareFrom(p, q, i) <= 0 && CompareFrom(q, r, i) <= 0 ==> CompareFrom(p, r, i) <= 0
    ensures CompareFrom(p, q, i) == 0 ==> CompareFrom(p, r, i) == CompareFrom(q, r, i)
    decreases |p| + |q| + |r| - i
  {
    hide Orderly, RankAt, CompareRanks, CompareAt;
    if i < |p| + |q| + |r| {
      OrderlyTransitive(p, q, r, i + 1);
      CompareStep(p, q, i);
      CompareStep(q, r, i);
      CompareStep(p, r, i);
      CompareAtRanks(p, q, i);
      CompareAtRanks(q, r, i);
      CompareAtRanks(p, r, i);
      CompareRanksTransitive(RankAt(p, i), RankAt(q, i), RankAt(r, i));
    }
  }

  /** Versions of numbers and words are totally preordered: any two compare, and the order carries over. */
  lemma OrderedVersionsArePreordered(a: string, b: string, c: string)
    requires IsOrdered(a) && IsOrdered(b) && IsOrdered(c)
    ensures Compare(a, a) == 0
    ensures Compare(a, b) <= 0 || Compare(b, a) <= 0
    ensures Compare(a, b) <= 0 && Compare(b, c) <= 0 ==> Compare(a, c) <= 0
    ensures Compare(a, b) == 0 ==> Compare(a, c) == Compare(b, c) && Compare(c, a) == Compare(c, b)
  {
    hide CompareFrom, Components, Orderly;
    SamePartsAreEqual(Components(a), 0);
    CompareAntisymmetric(a, b);
    CompareAntisymmetric(a, c);
    CompareAntisymmetric(b, c);
    OrderlyTransitive(Components(a), Components(b), Components(c), 0);
  }

  lemma NumericIsOrdered(version: string)
    requires IsNumeric(version)
    ensures IsOrdered(version)
  {
  }

  // ----- Other versions ---------------------------------------------------------------------------

  function PowerOfTen(n: nat): nat {
    if n == 0 then 1 else 10 * PowerOfTen(n - 1)
  }

  predicate AllDigits(s: string) {
    forall c | c in s :: IsDigit(c)
  }

  lemma {:induction false} AllLeading(s: string)
    requires AllDigits(s)
    ensures LeadingDigits(s) == s
  {
    if s != "" {
      assert IsDigit(s[0]) && s == [s[0]] + s[1..];
      AllLeading(s[1..]);
    }
  }

  lemma {:induction false} ValueAtLeast(s: string)
    requires AllDigits(s) && s != "" && s[0] != '0'
    ensures DecimalValue(s) >= PowerOfTen(|s| - 1)
  {
    assert IsDigit(s[0]);
    if |s| == 1 {
      assert DecimalValue(s[..0]) == 0;
    } else {
      assert IsDigit(s[|s| - 1]);
      ValueAtLeast(s[..|s| - 1]);
    }
  }

  /** Twenty digits do not fit 64 bits, and the component is compared as a string. */
  lemma LongNumbersDoNotFit(s: string)
    requires AllDigits(s) && |s| == 20 && s[0] != '0'
    ensures Number(s) == None
  {
    AllLeading(s);
    ValueAtLeast(s);
    assert PowerOfTen(7) == 10_000_000;
    assert PowerOfTen(13) == 10_000_000_000_000;
    assert PowerOfTen(19) > MAX_INT64;
  }

  /** A version without blanks, prefix or dots is its own one component. */
  lemma OneComponent(s: string)
    requires s != "" && !IsSpace(s[0]) && !IsSpace(s[|s| - 1]) && s[0] != 'v' && '.' !in s
    ensures Components(s) == [s]
  {
    SplitWhole(s, '.');
  }

  lemma OneComponentCompare(s: string, t: string)
    requires Components(s) == [s] && Components(t) == [t]
    ensures Compare(s, t) == CompareAt([s], [t], 0)
  {
    hide CompareAt, Components;
    assert CompareFrom([s], [t], 1) == 0;
  }

  /** A component of digits too long for 64 bits can close a circle of strict comparisons. */
  lemma CircularComparisons()
    ensures Compare("9", "10") < 0 && Compare("10", "50000000000000000000") < 0 && Compare("50000000000000000000", "9") < 0
  {
    hide Components, Compare, Number;
    var long := "50000000000000000000";
    assert AllDigits(long);
    LongNumbersDoNotFit(long);
    OneComponent("9");
    OneComponent("10");
    OneComponent(long);
    OneComponentCompare("9", "10");
    OneComponentCompare("10", long);
    OneComponentCompare(long, "9");
    assert Number("9") == Some(9) && Number("10") == Some(10) by { SmallNumbers(); }
    assert CompareStrings("10", long) < 0 && CompareStrings(long, "9") < 0;
  }

  lemma SmallNumbers()
    ensures Number("9") == Some(9) && Number("10") == Some(10)
  {
  }

  /** An empty component equals a missing one, which equals "0", which it does not equal. */
  lemma EmptyComponentsBreakEquality()
    ensures Compare("1.", "1") == 0 && Compare("1", "1.0") == 0 && Compare("1.", "1.0") < 0
  {
    hide Components, Number, CompareStrings;
    OneAndItsVariants();
    OneAndZero();
  }

  lemma OneAndItsVariants()
    ensures Components("1") == ["1"] && Components("1.") == ["1", ""] && Components("1.0") == ["1", "0"]
  {
    SplitWhole("1", '.');
    SplitWhole("0", '.');
    SplitPrefix("1", "", '.');
    SplitPrefix("1", "0", '.');
    assert "1" + ['.'] + "" == "1." && "1" + ['.'] + "0" == "1.0";
    hide Split;
  }

  lemma OneAndZero()
    ensures Number("1") == Some(1) && Number("0") == Some(0) && Number("") == None
    ensures CompareStrings("", "") == 0 && CompareStrings("", "0") == -1
  {
  }
}
