/** The few string operations the models share, on strings of characters (ASCII case and blanks). */
module Strings {

  function Split(s: string, sep: char): (parts: seq<string>)
    ensures |parts| >= 1
  {
    if s == "" then [""]
    else
      var rest := Split(s[1..], sep);
      if s[0] == sep then [""] + rest else [[s[0]] + rest[0]] + rest[1..]
  }

  function Join(parts: seq<string>, sep: char): string
    requires |parts| >= 1
  {
    if |parts| == 1 then parts[0] else parts[0] + [sep] + Join(parts[1..], sep)
  }

  lemma {:induction false} SplitPrefix(s: string, t: string, sep: char)
    requires sep !in s
    ensures Split(s + [sep] + t, sep) == [s] + Split(t, sep)
  {
    if s == "" {
      assert (s + [sep] + t)[1..] == t;
    } else {
      SplitPrefix(s[1..], t, sep);
      assert s[0] in s && [s[0]] + s[1..] == s;
      assert (s + [sep] + t)[1..] == s[1..] + [sep] + t;
    }
  }

  lemma {:induction false} SplitWhole(s: string, sep: char)
    requires sep !in s
    ensures Split(s, sep) == [s]
  {
    if s != "" {
      SplitWhole(s[1..], sep);
      assert s[0] in s && [s[0]] + s[1..] == s;
    }
  }

  /** Joining and splitting again gives the parts back, as long as no part holds the separator. */
  lemma {:induction false} SplitJoin(parts: seq<string>, sep: char)
    requires |parts| >= 1 && forall p | p in parts :: sep !in p
    ensures Split(Join(parts, sep), sep) == parts
  {
    if |parts| == 1 {
      SplitWhole(parts[0], sep);
    } else {
      SplitJoin(parts[1..], sep);
      SplitPrefix(parts[0], Join(parts[1..], sep), sep);
    }
  }

  lemma {:induction false} SplitParts(s: string, sep: char)
    ensures forall p | p in Split(s, sep) :: sep !in p
    ensures Join(Split(s, sep), sep) == s
  {
    if s != "" {
      SplitParts(s[1..], sep);
      var rest := Split(s[1..], sep);
      if s[0] == sep {
        assert ([""] + rest)[1..] == rest;
      } else {
        assert ([[s[0]] + rest[0]] + rest[1..])[1..] == rest[1..];
      }
    }
  }

  lemma SplitThree(a: string, b: string, c: string)
    requires ':' !in a && ':' !in b
    ensures Split(a + ":" + b + ":" + c, ':') == [a, b] + Split(c, ':')
  {
    assert a + ":" + b + ":" + c == a + [':'] + (b + [':'] + c);
    SplitPrefix(a, b + [':'] + c, ':');
    SplitPrefix(b, c, ':');
  }

  /** Three names joined by colons are told apart as long as the first two hold no colon. */
  lemma JoinedNamesDiffer(a1: string, b1: string, c1: string, a2: string, b2: string, c2: string)
    requires ':' !in a1 && ':' !in b1 && ':' !in a2 && ':' !in b2
    requires a1 + ":" + b1 + ":" + c1 == a2 + ":" + b2 + ":" + c2
    ensures a1 == a2 && b1 == b2 && c1 == c2
  {
    SplitThree(a1, b1, c1);
    SplitThree(a2, b2, c2);
    var parts1, parts2 := [a1, b1] + Split(c1, ':'), [a2, b2] + Split(c2, ':');
    assert parts1[0] == a1 && parts1[1] == b1 && parts2[0] == a2 && parts2[1] == b2;
    assert parts1[2..] == Split(c1, ':') && parts2[2..] == Split(c2, ':');
    SplitParts(c1, ':');
    SplitParts(c2, ':');
  }

  /** Two prefixes can be completed to the same string exactly when one is a prefix of the other. */
  lemma PrefixesMeetIff(p1: string, p2: string)
    ensures (exists s1: string, s2: string :: p1 + s1 == p2 + s2) <==> p1 <= p2 || p2 <= p1
  {
    if p1 <= p2 {
      assert p1 + p2[|p1|..] == p2 + "";
    } else if p2 <= p1 {
      assert p1 + "" == p2 + p1[|p2|..];
    } else {
      forall s1: string, s2: string ensures p1 + s1 != p2 + s2 {
        if p1 + s1 == p2 + s2 {
          PrefixOfBoth(p1, s1, p2, s2);
        }
      }
    }
  }

  lemma PrefixOfBoth(p1: string, s1: string, p2: string, s2: string)
    requires p1 + s1 == p2 + s2
    ensures p1 <= p2 || p2 <= p1
  {
    assert p1 == (p1 + s1)[..|p1|] && p2 == (p2 + s2)[..|p2|];
    if |p1| <= |p2| {
      assert (p2 + s2)[..|p1|] == p2[..|p1|];
    } else {
      assert (p1 + s1)[..|p2|] == p1[..|p2|];
    }
  }

  predicate Contains(s: string, t: string) {
    exists i {:trigger s[i..]} | 0 <= i <= |s| :: t <= s[i..]
  }

  // ----- Order ----------------------------------------------------------------------------------

  /** -1, 0 or 1 as s is before, the same as, or after t in dictionary order. */
  function CompareStrings(s: string, t: string): (c: int)
    ensures -1 <= c <= 1
    ensures c == 0 <==> s == t
  {
    if s == "" && t == "" then 0
    else if s == "" then -1
    else if t == "" then 1
    else if s[0] < t[0] then -1
    else if s[0] > t[0] then 1
    else
      assert s == [s[0]] + s[1..] && t == [t[0]] + t[1..];
      CompareStrings(s[1..], t[1..])
  }

  lemma {:induction false} CompareStringsTransitive(s: string, t: string, u: string)
    ensures CompareStrings(s, t) <= 0 && CompareStrings(t, u) <= 0 ==> CompareStrings(s, u) <= 0
    ensures CompareStrings(s, t) <= 0 && CompareStrings(t, u) <= 0 && s == u ==> s == t
  {
    if s != "" && t != "" && u != "" {
      CompareStringsTransitive(s[1..], t[1..], u[1..]);
      assert s == [s[0]] + s[1..] && t == [t[0]] + t[1..] && u == [u[0]] + u[1..];
    }
  }

  lemma {:induction false} CompareStringsAntisymmetric(s: string, t: string)
    ensures CompareStrings(t, s) == -CompareStrings(s, t)
  {
    if s != "" && t != "" && s[0] == t[0] {
      CompareStringsAntisymmetric(s[1..], t[1..]);
    }
  }

  // ----- Trimming and case ------------------------------------------------------------------------

  predicate IsSpace(c: char) {
    || c == ' ' || '\t' <= c <= '\r' || c == '\U{85}' || c == '\U{A0}' || c == '\U{1680}' || '\U{2000}' <= c <= '\U{200A}'
    || c == '\U{2028}' || c == '\U{2029}' || c == '\U{202F}' || c == '\U{205F}' || c == '\U{3000}'
  }

  function TrimLeft(s: string, drop: char -> bool): string {
    if s != "" && drop(s[0]) then TrimLeft(s[1..], drop) else s
  }

  function TrimRight(s: string, drop: char -> bool): string {
    if s != "" && drop(s[|s| - 1]) then TrimRight(s[..|s| - 1], drop) else s
  }

  function Trim(s: string, drop: char -> bool): string {
    TrimRight(TrimLeft(s, drop), drop)
  }

  lemma {:induction false} TrimLeftIs(s: string, drop: char -> bool) returns (k: nat)
    ensures k <= |s| && TrimLeft(s, drop) == s[k..] && Dropped(s, k, |s|, drop)
    ensures k < |s| ==> !drop(s[k])
  {
    if s != "" && drop(s[0]) {
      k := TrimLeftIs(s[1..], drop);
      k := k + 1;
      assert forall i | 1 <= i < |s| :: s[i] == s[1..][i - 1];
    } else {
      k := 0;
    }
  }

  lemma {:induction false} TrimRightIs(s: string, drop: char -> bool) returns (l: nat)
    ensures l <= |s| && TrimRight(s, drop) == s[..l] && Dropped(s, 0, l, drop)
    ensures l > 0 ==> !drop(s[l - 1])
  {
    if s != "" && drop(s[|s| - 1]) {
      var t := s[..|s| - 1];
      l := TrimRightIs(t, drop);
      assert forall i | 0 <= i < |t| :: s[i] == t[i];
      assert t[..l] == s[..l];
    } else {
      l := |s|;
    }
  }

  /** Trimming cuts a middle piece out that neither starts nor ends with what is dropped. */
  lemma TrimIs(s: string, drop: char -> bool) returns (k: nat, l: nat)
    ensures k <= l <= |s| && Trim(s, drop) == s[k..l] && Dropped(s, k, l, drop)
    ensures k < l ==> !drop(s[k]) && !drop(s[l - 1])
  {
    hide TrimLeft, TrimRight;
    k := TrimLeftIs(s, drop);
    var t := s[k..];
    l := TrimRightIs(t, drop);
    assert t[..l] == s[k..k + l];
    assert forall i | k <= i < |s| :: s[i] == t[i - k];
    l := k + l;
  }

  /** Everything before k and from l on is dropped. */
  predicate Dropped(s: string, k: nat, l: nat, drop: char -> bool) {
    (forall i | 0 <= i < k && i < |s| :: drop(s[i])) && (forall i | l <= i < |s| :: drop(s[i]))
  }

  /** A middle piece that neither starts nor ends with what is dropped is what trimming leaves. */
  lemma {:induction false} TrimAround(before: string, mid: string, after: string, drop: char -> bool)
    requires forall c | c in before + after :: drop(c)
    requires mid != "" && !drop(mid[0]) && !drop(mid[|mid| - 1])
    ensures Trim(before + mid + after, drop) == mid
  {
    TrimLeftPast(before, mid + after, drop);
    assert before + mid + after == before + (mid + after);
    TrimRightPast(mid, after, drop);
  }

  lemma {:induction false} TrimLeftPast(before: string, rest: string, drop: char -> bool)
    requires (forall c | c in before :: drop(c)) && rest != "" && !drop(rest[0])
    ensures TrimLeft(before + rest, drop) == rest
  {
    if before == "" {
      assert before + rest == rest;
    } else {
      assert before[0] in before && (before + rest)[1..] == before[1..] + rest;
      TrimLeftPast(before[1..], rest, drop);
    }
  }

  lemma {:induction false} TrimRightPast(rest: string, after: string, drop: char -> bool)
    requires (forall c | c in after :: drop(c)) && rest != "" && !drop(rest[|rest| - 1])
    ensures TrimRight(rest + after, drop) == rest
  {
    if after == "" {
      assert rest + after == rest;
    } else {
      var n := |after| - 1;
      assert after[n] in after && (rest + after)[..|rest| + n] == rest + after[..n];
      TrimRightPast(rest, after[..n], drop);
    }
  }


  lemma TrimKeeps(s: string, drop: char -> bool)
    requires s != "" ==> !drop(s[0]) && !drop(s[|s| - 1])
    ensures Trim(s, drop) == s
  {
  }

  function TrimSpace(s: string): string {
    Trim(s, IsSpace)
  }

  /** ASCII letters, and the two other letters whose lower case is an ASCII letter. */
  function LowerChar(c: char): char {
    if 'A' <= c <= 'Z' then c - 'A' + 'a' else if c == '\U{130}' then 'i' else if c == '\U{212A}' then 'k' else c
  }

  function Lower(s: string): (r: string)
    ensures |r| == |s| && forall i | 0 <= i < |s| :: r[i] == LowerChar(s[i])
  {
    if s == "" then "" else [LowerChar(s[0])] + Lower(s[1..])
  }

  function UpperChar(c: char): char {
    if 'a' <= c <= 'z' then c - 'a' + 'A' else c
  }

  function Upper(s: string): (r: string)
    ensures |r| == |s| && forall i | 0 <= i < |s| :: r[i] == UpperChar(s[i])
  {
    if s == "" then "" else [UpperChar(s[0])] + Upper(s[1..])
  }

  predicate EqualFold(s: string, t: string) {
    Upper(s) == Upper(t)
  }

  lemma UpperTwice(s: string)
    ensures Upper(Upper(s)) == Upper(s)
  {
  }

  // ----- What case and blanks are -------------------------------------------------------------------

  /** Between the two cases of an ASCII letter lie 32 places; all else but two letters is its own lower case. */
  lemma CaseOfLetters(c: char)
    ensures 'A' <= c <= 'Z' ==> LowerChar(c) as int == c as int + 32 && UpperChar(c) == c
    ensures 'a' <= c <= 'z' ==> UpperChar(c) as int == c as int - 32 && LowerChar(c) == c
    ensures c < 'A' || 'Z' < c < 'a' || ('z' < c && c != '\U{130}' && c != '\U{212A}') ==> LowerChar(c) == c && UpperChar(c) == c
  {
  }

  /** Trimming takes the blanks off both ends, and nothing else. */
  lemma TrimSpaceMeans(before: string, mid: string, after: string)
    requires forall c | c in before + after :: c in " \t\n\r"
    requires mid != "" && '!' <= mid[0] <= '~' && '!' <= mid[|mid| - 1] <= '~'
    ensures TrimSpace(before + mid + after) == mid && TrimSpace(before + after) == ""
  {
    TrimAround(before, mid, after, IsSpace);
    var s := before + after;
    assert forall i | 0 <= i < |s| :: s[i] in s;
    var k, l := TrimIs(s, IsSpace);
  }

  /** The first string stands somewhere in the second. */
  ghost predicate Occurs(t: string, s: string) {
    exists before: string, after: string :: s == before + t + after
  }

  predicate SameButForCase(s: string, t: string) {
    |s| == |t| && forall i | 0 <= i < |s| :: UpperChar(s[i]) == UpperChar(t[i])
  }

  lemma OccursIs(t: string, s: string)
    ensures Contains(s, t) <==> Occurs(t, s)
  {
    if Contains(s, t) {
      var i :| 0 <= i <= |s| && t <= s[i..];
      assert s == s[..i] + t + s[i..][|t|..];
    }
    if Occurs(t, s) {
      var before: string, after: string :| s == before + t + after;
      assert s[|before|..] == t + after;
    }
  }

  lemma FoldIs(s: string, t: string)
    ensures EqualFold(s, t) <==> SameButForCase(s, t)
  {
    if EqualFold(s, t) {
      assert forall i | 0 <= i < |s| :: Upper(s)[i] == Upper(t)[i];
    }
  }
}
