/**
  The version order: dotted components, compared as numbers where both read as 64-bit integers and as
  strings otherwise, with missing components read as zero.
*/
module Versions {
  import opened Prelude
  import opened Strings

  const MAX_INT64 := 0x7FFF_FFFF_FFFF_FFFF

  predicate IsDigit(c: char) {
    '0' <= c <= '9'
  }

  /** The leading digits of a component. */
  function LeadingDigits(s: string): (d: string)
    ensures forall c | c in d :: IsDigit(c)
  {
    if s != "" && IsDigit(s[0]) then [s[0]] + LeadingDigits(s[1..]) else ""
  }

  method CleanNumber(s: string) returns (digits: string)
    ensures digits == LeadingDigits(s)
  {
    digits := "";
    assert s[0..] == s;
    for i := 0 to |s|
      invariant LeadingDigits(s) == digits + LeadingDigits(s[i..])
    {
      assert s[i..][0] == s[i] && s[i..][1..] == s[i + 1..];
      assert digits + ([s[i]] + LeadingDigits(s[i + 1..])) == digits + [s[i]] + LeadingDigits(s[i + 1..]);
      if !IsDigit(s[i]) {
        return;
      }
      digits := digits + [s[i]];
    }
  }

  function DecimalValue(digits: string): nat
    requires forall c | c in digits :: IsDigit(c)
  {
    if digits == "" then 0
    else
      assert IsDigit(digits[|digits| - 1]);
      DecimalValue(digits[..|digits| - 1]) * 10 + (digits[|digits| - 1] as int - '0' as int)
  }

  /** The number a component starts with, if there is one and it fits 64 bits. */
  function Number(part: string): Option<nat> {
    var digits := LeadingDigits(part);
    if digits == "" || DecimalValue(digits) > MAX_INT64 then None else Some(DecimalValue(digits))
  }

  function Components(version: string): (parts: seq<string>)
    ensures |parts| >= 1
  {
    Split(WithoutV(TrimSpace(version)), '.')
  }

  function WithoutV(s: string): string {
    if s != "" && s[0] == 'v' then s[1..] else s
  }

  // ----- Comparing ------------------------------------------------------------------------------

  /** A missing component is the empty string, and the number zero. */
  function PartAt(parts: seq<string>, i: nat): string {
    if i < |parts| then parts[i] else ""
  }

  function NumberAt(parts: seq<string>, i: nat): Option<nat> {
    if i < |parts| then Number(parts[i]) else Some(0)
  }

  function Sign(n: int): int {
    if n < 0 then -1 else if n > 0 then 1 else 0
  }

  function CompareAt(parts1: seq<string>, parts2: seq<string>, i: nat): int {
    var n1, n2 := NumberAt(parts1, i), NumberAt(parts2, i);
    if n1.Some? && n2.Some? then Sign(n1.value - n2.value) else CompareStrings(PartAt(parts1, i), PartAt(parts2, i))
  }

  function MaxLength(parts1: seq<string>, parts2: seq<string>): nat {
    if |parts2| > |parts1| then |parts2| else |parts1|
  }

  /** The first difference from component i on decides. */
  function CompareFrom(parts1: seq<string>, parts2: seq<string>, i: nat): int
    decreases MaxLength(parts1, parts2) - i
  {
    if i >= MaxLength(parts1, parts2) then 0
    else if CompareAt(parts1, parts2, i) != 0 then CompareAt(parts1, parts2, i)
    else CompareFrom(parts1, parts2, i + 1)
  }

  function Compare(v1: string, v2: string): int {
    CompareFrom(Components(v1), Components(v2), 0)
  }

  lemma {:induction false} SamePartsAreEqual(parts: seq<string>, i: nat)
    ensures CompareFrom(parts, parts, i) == 0
    decreases |parts| - i
  {
    if i < |parts| {
      SamePartsAreEqual(parts, i + 1);
    }
  }

  /** The comparison as it runs, with its short cut for equal strings. */
  method CompareVersions(v1: string, v2: string) returns (c: int)
    ensures c == Compare(v1, v2)
  {
    var v1Clean, v2Clean := WithoutV(TrimSpace(v1)), WithoutV(TrimSpace(v2));
    if v1Clean == v2Clean {
      SamePartsAreEqual(Components(v1), 0);
      return 0;
    }
    var parts1, parts2 := Split(v1Clean, '.'), Split(v2Clean, '.');
    var maxLen := |parts1|;
    if |parts2| > maxLen {
      maxLen := |parts2|;
    }
    for i := 0 to maxLen
      invariant CompareFrom(parts1, parts2, 0) == CompareFrom(parts1, parts2, i)
    {
      var n1, n2 := Some(0), Some(0);
      if i < |parts1| {
        var digits := CleanNumber(parts1[i]);
        n1 := ParseInt64(digits);
      }
      if i < |parts2| {
        var digits := CleanNumber(parts2[i]);
        n2 := ParseInt64(digits);
      }
      if n1.Some? && n2.Some? {
        if n1.value < n2.value {
          return -1;
        }
        if n1.value > n2.value {
          return 1;
        }
      } else {
        var s1, s2 := "", "";
        if i < |parts1| {
          s1 := parts1[i];
        }
        if i < |parts2| {
          s2 := parts2[i];
        }
        if CompareStrings(s1, s2) < 0 {
          return -1;
        }
        if CompareStrings(s1, s2) > 0 {
          return 1;
        }
      }
    }
    return 0;
  }

  function ParseInt64(digits: string): Option<nat>
    requires forall c | c in digits :: IsDigit(c)
  {
    if digits == "" || DecimalValue(digits) > MAX_INT64 then None else Some(DecimalValue(digits))
  }
}
