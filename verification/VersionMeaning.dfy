/** What the comparison makes of versions as people write them. */
module VersionMeaning {
  import opened Prelude
  import opened Strings
  import opened Versions
  import opened VersionOrder

  function Decimal(n: nat): string {
    if n < 10 then ["0123456789"[n]] else Decimal(n / 10) + ["0123456789"[n % 10]]
  }

  /** One component of a version: a number and what is written behind it, as in "3rc1". */
  datatype Component = Component(number: nat, tail: string)

  /** The tail starts with no digit, and holds no dot and no blank. */
  predicate Proper(c: Component) {
    && (c.tail == "" || !('0' <= c.tail[0] <= '9'))
    && forall i | 0 <= i < |c.tail| :: '!' <= c.tail[i] <= '~' && c.tail[i] != '.'
  }

  function Text(c: Component): string {
    Decimal(c.number) + c.tail
  }

  function Dotted(cs: seq<Component>): string
    requires cs != []
  {
    if |cs| == 1 then Text(cs[0]) else Text(cs[0]) + "." + Dotted(cs[1..])
  }

  /** A version as written: blanks around it, maybe a "v" before it. */
  datatype Version = Version(before: string, v: bool, components: seq<Component>, after: string)

  predicate WellWritten(w: Version) {
    && w.components != [] && (forall i | 0 <= i < |w.components| :: Proper(w.components[i]))
    && forall c | c in w.before + w.after :: c in " \t\n\r"
  }

  function Written(w: Version): string
    requires w.components != []
  {
    w.before + ((if w.v then "v" else "") + Dotted(w.components)) + w.after
  }

  /** The number at a place; zero past the end. */
  function NumberIn(w: Version, i: nat): nat {
    if i < |w.components| then w.components[i].number else 0
  }

  predicate Fits(w: Version) {
    forall i | 0 <= i < |w.components| :: w.components[i].number <= 9223372036854775807
  }

  // ----- From text to numbers -------------------------------------------------------------------------

  lemma {:induction false} DecimalIs(n: nat)
    ensures |Decimal(n)| >= 1 && AllDigits(Decimal(n)) && DecimalValue(Decimal(n)) == n
    ensures forall i | 0 <= i < |Decimal(n)| :: IsDigit(Decimal(n)[i])
    decreases n
  {
    var last := "0123456789"[n % 10];
    assert IsDigit(last) && last as int - '0' as int == n % 10;
    if n >= 10 {
      DecimalIs(n / 10);
      assert Decimal(n)[..|Decimal(n)| - 1] == Decimal(n / 10);
    } else {
      assert Decimal(n)[..0] == "";
    }
  }

  lemma {:induction false} LeadingDigitsOf(digits: string, tail: string)
    requires (forall i | 0 <= i < |digits| :: IsDigit(digits[i])) && (tail == "" || !IsDigit(tail[0]))
    ensures LeadingDigits(digits + tail) == digits
  {
    if digits == "" {
      assert digits + tail == tail;
    } else {
      LeadingDigitsOf(digits[1..], tail);
      assert (digits + tail)[1..] == digits[1..] + tail;
    }
  }

  /** A component counts as the number it starts with, if that fits 64 bits. */
  lemma NumberOf(c: Component)
    requires Proper(c)
    ensures Number(Text(c)) == if c.number <= 9223372036854775807 then Some(c.number) else None
  {
    DecimalIs(c.number);
    LeadingDigitsOf(Decimal(c.number), c.tail);
  }

  lemma TextIs(c: Component)
    requires Proper(c)
    ensures |Text(c)| >= 1 && IsDigit(Text(c)[0]) && '!' <= Text(c)[|Text(c)| - 1] <= '~' && '.' !in Text(c)
  {
    DecimalIs(c.number);
    hide Decimal, AllDigits;
    assert forall i | 0 <= i < |Text(c)| :: if i < |Decimal(c.number)| then IsDigit(Text(c)[i]) else Text(c)[i] == c.tail[i - |Decimal(c.number)|];
  }

  lemma {:induction false} DottedIs(cs: seq<Component>)
    requires cs != [] && forall i | 0 <= i < |cs| :: Proper(cs[i])
    ensures var s := Dotted(cs);
            && |s| >= 1 && IsDigit(s[0]) && '!' <= s[|s| - 1] <= '~'
            && |Split(s, '.')| == |cs| && forall i | 0 <= i < |cs| :: Split(s, '.')[i] == Text(cs[i])
  {
    hide Text, Proper;
    TextIs(cs[0]);
    if |cs| == 1 {
      SplitWhole(Text(cs[0]), '.');
    } else {
      DottedIs(cs[1..]);
      SplitPrefix(Text(cs[0]), Dotted(cs[1..]), '.');
      assert forall i | 1 <= i < |cs| :: cs[i] == cs[1..][i - 1];
    }
  }

  /** The components of a version are those written, whatever is around them. */
  lemma ComponentsAre(w: Version)
    requires WellWritten(w)
    ensures var parts := Components(Written(w));
            |parts| == |w.components| && forall i | 0 <= i < |parts| :: parts[i] == Text(w.components[i])
  {
    hide Dotted, Trim, Split, Text, Proper;
    DottedIs(w.components);
    var body := Dotted(w.components);
    var mid := (if w.v then "v" else "") + body;
    assert mid[0] == if w.v then 'v' else body[0];
    assert mid[|mid| - 1] == body[|body| - 1];
    TrimSpaceMeans(w.before, mid, w.after);
    assert w.v ==> mid[1..] == body;
    assert !w.v ==> mid == body;
  }

  lemma NumbersAre(w: Version)
    requires WellWritten(w) && Fits(w)
    ensures IsNumeric(Written(w)) && forall i: nat :: At(Written(w), i) == NumberIn(w, i)
  {
    ComponentsAre(w);
    hide Components, Number, Text, Proper, Written;
    forall i | 0 <= i < |w.components| ensures Number(Text(w.components[i])) == Some(w.components[i].number) {
      NumberOf(w.components[i]);
    }
  }

  // ----- What the comparison says -----------------------------------------------------------------------

  /** The first number in which they differ is smaller in the first version. */
  ghost predicate Older(w: Version, x: Version) {
    exists k: nat :: NumberIn(w, k) < NumberIn(x, k) && forall j: nat | j < k :: NumberIn(w, j) == NumberIn(x, j)
  }

  /**
    Versions of numbers that fit 64 bits are compared number by number, a missing one as zero; what is written
    behind a number, blanks around the version and a "v" before it do not matter.
    */
  lemma CompareMeans(w: Version, x: Version)
    requires WellWritten(w) && WellWritten(x) && Fits(w) && Fits(x)
    ensures Compare(Written(w), Written(x)) < 0 <==> Older(w, x)
    ensures Compare(Written(w), Written(x)) > 0 <==> Older(x, w)
    ensures Compare(Written(w), Written(x)) == 0 <==> forall k: nat :: NumberIn(w, k) == NumberIn(x, k)
  {
    NumbersAre(w);
    NumbersAre(x);
    var s, t := Written(w), Written(x);
    ComparesAsNumbers(s, t);
    hide Written, WellWritten, NumberIn, At, IsNumeric, Compare;
    BeforeIs(w, x);
    BeforeIs(x, w);
  }

  lemma BeforeIs(w: Version, x: Version)
    requires w.components != [] && x.components != [] && IsNumeric(Written(w)) && IsNumeric(Written(x))
    requires forall i: nat :: At(Written(w), i) == NumberIn(w, i)
    requires forall i: nat :: At(Written(x), i) == NumberIn(x, i)
    ensures Before(Written(w), Written(x)) <==> Older(w, x)
  {
    hide Written, NumberIn, At, IsNumeric;
    var s, t := Written(w), Written(x);
    if Before(s, t) {
      var k: nat :| FirstDifference(s, t, k) && At(s, k) < At(t, k);
      assert NumberIn(w, k) < NumberIn(x, k);
      assert forall j: nat | j < k :: At(s, j) == At(t, j);
    }
    if Older(w, x) {
      var k: nat :| NumberIn(w, k) < NumberIn(x, k) && forall j: nat | j < k :: NumberIn(w, j) == NumberIn(x, j);
      assert FirstDifference(s, t, k);
    }
  }

  /** One name is before another when it is a proper prefix of it or has the smaller character where they first differ. */
  ghost predicate NameBefore(s: string, t: string) {
    exists k :: Splits(s, t, k)
  }

  ghost predicate Splits(s: string, t: string, k: int) {
    0 <= k <= |s| && k < |t| && s[..k] == t[..k] && (k == |s| || s[k] < t[k])
  }

  lemma {:induction false} NameBeforeIs(s: string, t: string)
    ensures CompareStrings(s, t) < 0 <==> NameBefore(s, t)
  {
    if CompareStrings(s, t) < 0 {
      if s != "" && s[0] == t[0] {
        NameBeforeIs(s[1..], t[1..]);
        var k :| Splits(s[1..], t[1..], k);
        assert s[..k + 1] == [s[0]] + s[1..][..k] && t[..k + 1] == [t[0]] + t[1..][..k];
        assert Splits(s, t, k + 1);
      } else {
        assert Splits(s, t, 0);
      }
    }
    forall k | Splits(s, t, k) ensures CompareStrings(s, t) < 0 {
      if k > 0 {
        assert s[..k][0] == s[0] && t[..k][0] == t[0];
        assert s[1..][..k - 1] == s[..k][1..] && t[1..][..k - 1] == t[..k][1..];
        assert Splits(s[1..], t[1..], k - 1);
        NameBeforeIs(s[1..], t[1..]);
      }
    }
  }

  /** A version of one component that starts with no digit is compared by its characters, with anything of one component. */
  lemma NamesCompare(s: string, t: string)
    requires forall x | x in [s, t] :: x != "" && !IsSpace(x[0]) && !IsSpace(x[|x| - 1]) && x[0] != 'v' && '.' !in x
    requires !('0' <= s[0] <= '9')
    ensures Compare(s, t) < 0 <==> NameBefore(s, t)
    ensures Compare(s, t) > 0 <==> NameBefore(t, s)
  {
    hide Components, CompareStrings, NameBefore, Compare;
    assert s in [s, t] && t in [s, t];
    OneComponent(s);
    OneComponent(t);
    OneComponentCompare(s, t);
    NameBeforeIs(s, t);
    NameBeforeIs(t, s);
    CompareStringsAntisymmetric(s, t);
    assert LeadingDigits(s) == "";
  }
}
