/**
  The opaque pagination cursor: a signed decimal timestamp, a bar and an ID, in unpadded base64url
  (section 5 of RFC 4648). Strings that carry data are sequences of bytes, as in the source.
*/
module KeysetCursor {
  import opened Prelude

  type Byte = x: int | 0 <= x < 256

  type Bytes = seq<Byte>

  type Sextet = x: int | 0 <= x < 64

  /** Nanoseconds since 1970, as the source's int64. */
  type Nanos = x: int | -0x8000_0000_0000_0000 <= x < 0x8000_0000_0000_0000

  datatype Cursor = Cursor(createdAt: Nanos, id: Bytes)

  datatype CursorError = InvalidBase64 | MalformedPayload | InvalidTimestamp

  const BAR: Byte := 124
  const MINUS: Byte := 45
  const PLUS: Byte := 43
  const ZERO: Byte := 48

  // ----- Base64url without padding --------------------------------------------------------

  function SextetChar(x: Sextet): char {
    if x < 26 then 'A' + x as char
    else if x < 52 then 'a' + (x - 26) as char
    else if x < 62 then '0' + (x - 52) as char
    else if x == 62 then '-'
    else '_'
  }

  function CharSextet(c: char): Option<Sextet> {
    if 'A' <= c <= 'Z' then Some(c as int - 'A' as int)
    else if 'a' <= c <= 'z' then Some(c as int - 'a' as int + 26)
    else if '0' <= c <= '9' then Some(c as int - '0' as int + 52)
    else if c == '-' then Some(62)
    else if c == '_' then Some(63)
    else None
  }

  function ToSextets(b: Bytes): seq<Sextet> {
    if |b| == 0 then []
    else if |b| == 1 then [b[0] / 4, b[0] % 4 * 16]
    else if |b| == 2 then [b[0] / 4, b[0] % 4 * 16 + b[1] / 16, b[1] % 16 * 4]
    else [b[0] / 4, b[0] % 4 * 16 + b[1] / 16, b[1] % 16 * 4 + b[2] / 64, b[2] % 64] + ToSextets(b[3..])
  }

  function FirstByte(a: int, b: int): Byte
    requires 0 <= a < 64 && 0 <= b < 64
  {
    a * 4 + b / 16
  }

  function SecondByte(b: int, c: int): Byte
    requires 0 <= b < 64 && 0 <= c < 64
  {
    b % 16 * 16 + c / 4
  }

  function ThirdByte(c: int, d: int): Byte
    requires 0 <= c < 64 && 0 <= d < 64
  {
    c % 4 * 64 + d
  }

  /** The bits left over in a short last group are ignored; a last group of one sextet is an error. */
  function FromSextets(s: seq<Sextet>): Option<Bytes> {
    if |s| == 0 then Some([])
    else if |s| == 1 then None
    else if |s| == 2 then Some([FirstByte(s[0], s[1])])
    else if |s| == 3 then Some([FirstByte(s[0], s[1]), SecondByte(s[1], s[2])])
    else
      match FromSextets(s[4..])
      case None => None
      case Some(rest) => Some([FirstByte(s[0], s[1]), SecondByte(s[1], s[2]), ThirdByte(s[2], s[3])] + rest)
  }

  function Chars(s: seq<Sextet>): string {
    if s == [] then "" else [SextetChar(s[0])] + Chars(s[1..])
  }

  /** The decoder skips line breaks. */
  function StripNewlines(s: string): string {
    if s == "" then ""
    else if s[0] == '\n' || s[0] == '\r' then StripNewlines(s[1..])
    else [s[0]] + StripNewlines(s[1..])
  }

  function Sextets(s: string): Option<seq<Sextet>> {
    if s == "" then Some([])
    else
      match CharSextet(s[0])
      case None => None
      case Some(x) =>
        match Sextets(s[1..])
        case None => None
        case Some(rest) => Some([x] + rest)
  }

  function EncodeBase64(b: Bytes): string {
    Chars(ToSextets(b))
  }

  function DecodeBase64(s: string): Option<Bytes> {
    match Sextets(StripNewlines(s))
    case None => None
    case Some(sextets) => FromSextets(sextets)
  }

  // ----- Decimal numbers ------------------------------------------------------------------

  function Digits(n: nat): Bytes {
    if n < 10 then [ZERO + n] else Digits(n / 10) + [ZERO + n % 10]
  }

  function PrintInt(n: int): Bytes {
    if n < 0 then [MINUS] + Digits(-n) else Digits(n)
  }

  predicate IsDigit(b: Byte) {
    ZERO <= b <= ZERO + 9
  }

  /** How many digits the bytes start with. */
  function DigitRun(s: Bytes): (n: nat)
    ensures n <= |s| && forall i | 0 <= i < n :: IsDigit(s[i])
    ensures n < |s| ==> !IsDigit(s[n])
  {
    if s != [] && IsDigit(s[0]) then 1 + DigitRun(s[1..]) else 0
  }

  function DigitValue(b: Byte): nat
    requires IsDigit(b)
  {
    var d: int := b;
    d - ZERO
  }

  function DecimalValue(s: Bytes): nat
    requires forall i | 0 <= i < |s| :: IsDigit(s[i])
  {
    if s == [] then 0 else DecimalValue(s[..|s| - 1]) * 10 + DigitValue(s[|s| - 1])
  }

  function SkipBlanks(s: Bytes): Bytes {
    if s != [] && s[0] in {9, 11, 12, 13, 32} then SkipBlanks(s[1..]) else s
  }

  /** Scans one int64: blanks, an optional sign, digits. What follows the digits is ignored. */
  function ScanInt64(s: Bytes): Option<Nanos> {
    var t := SkipBlanks(s);
    var signed := t != [] && (t[0] == MINUS || t[0] == PLUS);
    var u := if signed then t[1..] else t;
    var run := DigitRun(u);
    if run == 0 then None
    else
      var value: int := DecimalValue(u[..run]);
      var n: int := if signed && t[0] == MINUS then -value else value;
      if -0x8000_0000_0000_0000 <= n < 0x8000_0000_0000_0000 then Some(n) else None
  }

  // ----- The cursor -----------------------------------------------------------------------

  function EncodeCursor(createdAt: Nanos, id: Bytes): string {
    EncodeBase64(PrintInt(createdAt) + [BAR] + id)
  }

  /** The position of the first bar, or the length when there is none. */
  function FirstBar(s: Bytes): (n: nat)
    ensures n <= |s| && BAR !in s[..n]
    ensures n < |s| ==> s[n] == BAR
  {
    if s == [] || s[0] == BAR then 0
    else
      var n := FirstBar(s[1..]);
      assert s[..n + 1] == [s[0]] + s[1..][..n];
      n + 1
  }

  /** No cursor at all is not an error. */
  function DecodeCursor(cursorStr: string): Result<Option<Cursor>, CursorError> {
    if cursorStr == "" then Ok(None)
    else
      match DecodeBase64(cursorStr)
      case None => Err(InvalidBase64)
      case Some(bytes) =>
        var bar := FirstBar(bytes);
        if bar == |bytes| then Err(MalformedPayload)
        else
          match ScanInt64(bytes[..bar])
          case None => Err(InvalidTimestamp)
          case Some(nanos) => Ok(Some(Cursor(nanos, bytes[bar + 1..])))
  }

  // ----- Round trips ----------------------------------------------------------------------

  lemma CharRoundTrip(x: Sextet)
    ensures CharSextet(SextetChar(x)) == Some(x) && SextetChar(x) != '\n' && SextetChar(x) != '\r'
  {
  }

  lemma {:induction false} CharsRoundTrip(s: seq<Sextet>)
    ensures StripNewlines(Chars(s)) == Chars(s) && Sextets(Chars(s)) == Some(s)
  {
    if s != [] {
      CharRoundTrip(s[0]);
      CharsRoundTrip(s[1..]);
      assert Chars(s)[1..] == Chars(s[1..]);
      assert s == [s[0]] + s[1..];
    }
  }

  lemma {:induction false} SextetsRoundTrip(b: Bytes)
    ensures FromSextets(ToSextets(b)) == Some(b)
  {
    if |b| >= 3 {
      SextetsRoundTrip(b[3..]);
      GroupComesBack(b);
    } else if |b| == 2 {
      GroupRoundTrip(b[0], b[1], 0);
      assert b == [b[0], b[1]];
    } else if |b| == 1 {
      GroupRoundTrip(b[0], 0, 0);
      assert b == [b[0]];
    }
  }

  lemma GroupComesBack(b: Bytes)
    requires |b| >= 3 && FromSextets(ToSextets(b[3..])) == Some(b[3..])
    ensures FromSextets(ToSextets(b)) == Some(b)
  {
    hide ToSextets, FromSextets, FirstByte, SecondByte, ThirdByte;
    GroupSextets(b[0], b[1], b[2], b[3..]);
    assert b == [b[0], b[1], b[2]] + b[3..];
    assert ToSextets(b)[4..] == ToSextets(b[3..]);
    FromFour(ToSextets(b));
    GroupBytes(b[0], b[1], b[2]);
  }

  lemma GroupBytes(x: Byte, y: Byte, z: Byte)
    ensures FirstByte(x / 4, x % 4 * 16 + y / 16) == x
    ensures SecondByte(x % 4 * 16 + y / 16, y % 16 * 4 + z / 64) == y
    ensures ThirdByte(y % 16 * 4 + z / 64, z % 64) == z
  {
    GroupRoundTrip(x, y, z);
  }

  /** Three bytes survive being cut into four sextets. */
  lemma GroupRoundTrip(x: Byte, y: Byte, z: Byte)
    ensures var a, b, c, d := x / 4, x % 4 * 16 + y / 16, y % 16 * 4 + z / 64, z % 64;
            && a * 4 + b / 16 == x && b % 16 * 16 + c / 4 == y && c % 4 * 64 + d == z
  {
    assert (x % 4 * 16 + y / 16) / 16 == x % 4 && (x % 4 * 16 + y / 16) % 16 == y / 16;
    assert (y % 16 * 4 + z / 64) / 4 == y % 16 && (y % 16 * 4 + z / 64) % 4 == z / 64;
  }

  lemma Base64RoundTrip(b: Bytes)
    ensures DecodeBase64(EncodeBase64(b)) == Some(b)
    ensures EncodeBase64(b) == "" <==> b == []
  {
    CharsRoundTrip(ToSextets(b));
    SextetsRoundTrip(b);
  }

  lemma {:induction false} DigitsRoundTrip(n: nat)
    ensures var s := Digits(n);
            && |s| > 0 && (forall i | 0 <= i < |s| :: IsDigit(s[i]))
            && DecimalValue(s) == n
    decreases n
  {
    if n >= 10 {
      DigitsRoundTrip(n / 10);
      var s := Digits(n);
      assert s[..|s| - 1] == Digits(n / 10);
    }
  }

  lemma PrintIntRoundTrip(n: Nanos)
    ensures ScanInt64(PrintInt(n)) == Some(n) && BAR !in PrintInt(n)
  {
    hide Digits, DecimalValue, ScanInt64;
    var m: int := n;
    var digits := Digits(if m < 0 then -m else m);
    DigitsRoundTrip(if m < 0 then -m else m);
    assert IsDigit(digits[0]) && digits + [] == digits;
    assert n < 0 ==> PrintInt(n)[1..] == digits;
    ScanFrom(PrintInt(n), PrintInt(n), digits, []);
  }

  lemma FirstBarIs(s: Bytes, id: Bytes)
    requires BAR !in s
    ensures FirstBar(s + [BAR] + id) == |s|
  {
    var t := s + [BAR] + id;
    assert t[|s|] == BAR;
    assert forall n | |s| < n <= |t| :: t[..n][|s|] == BAR;
    assert forall n | 0 <= n < |s| :: t[n] == s[n];
  }

  /** Decoding an encoded cursor gives back every int64 timestamp and every ID, bars in the ID included. */
  lemma CursorRoundTrip(createdAt: Nanos, id: Bytes)
    ensures DecodeCursor(EncodeCursor(createdAt, id)) == Ok(Some(Cursor(createdAt, id)))
    ensures EncodeCursor(createdAt, id) != ""
  {
    var head := PrintInt(createdAt);
    var raw := head + [BAR] + id;
    Base64RoundTrip(raw);
    PrintIntRoundTrip(createdAt);
    FirstBarIs(head, id);
    assert raw[..|head|] == head && raw[|head| + 1..] == id;
  }

  // ----- The formats, and what is refused --------------------------------------------------------------

  /** The URL and filename safe alphabet of section 5 of RFC 4648. */
  const ALPHABET := "ABCDEFGHIJKLMNOPQRSTUVWXYZ" + "abcdefghijklmnopqrstuvwxyz" + "0123456789" + "-_"

  lemma AlphabetIs(x: Sextet)
    ensures |ALPHABET| == 64 && SextetChar(x) == ALPHABET[x]
  {
    if x < 26 {
      assert SextetChar(x) == "ABCDEFGHIJKLMNOPQRSTUVWXYZ"[x];
    } else if x < 52 {
      assert SextetChar(x) == "abcdefghijklmnopqrstuvwxyz"[x - 26];
    } else if x < 62 {
      assert SextetChar(x) == "0123456789"[x - 52];
    }
  }

  /** Four characters for three bytes: the same 24 bits, cut into sixes from the left (section 4 of RFC 4648). */
  ghost predicate Spells(chars: string, x: Byte, y: Byte, z: Byte) {
    exists a: Sextet, b: Sextet, c: Sextet, d: Sextet ::
      && chars == [ALPHABET[a], ALPHABET[b], ALPHABET[c], ALPHABET[d]]
      && ((a * 64 + b) * 64 + c) * 64 + d == (x * 256 + y) * 256 + z
  }

  /** Bytes are encoded three at a time; one or two last bytes are filled up with zero bits and no padding is kept. */
  lemma EncodeMeans(x: Byte, y: Byte, z: Byte, rest: Bytes)
    ensures |EncodeBase64([x, y, z])| == 4 && Spells(EncodeBase64([x, y, z]), x, y, z)
    ensures EncodeBase64([x, y, z] + rest) == EncodeBase64([x, y, z]) + EncodeBase64(rest)
    ensures EncodeBase64([]) == ""
    ensures |EncodeBase64([x, 0, 0])| == 4 && EncodeBase64([x]) == EncodeBase64([x, 0, 0])[..2]
    ensures |EncodeBase64([x, y, 0])| == 4 && EncodeBase64([x, y]) == EncodeBase64([x, y, 0])[..3]
  {
    hide SextetChar, Spells;
    ThreeBytes(x, y, z);
    ThreeBytes(x, 0, 0);
    ThreeBytes(x, y, 0);
    GroupFirst(x, y, z, rest);
    var one, two := ToSextets([x]), ToSextets([x, y]);
    CharsAre(one);
    CharsAre(two);
  }

  lemma {:induction false} CharsAre(s: seq<Sextet>)
    ensures |Chars(s)| == |s| && forall i | 0 <= i < |s| :: Chars(s)[i] == SextetChar(s[i])
  {
    if s != [] {
      CharsAre(s[1..]);
    }
  }

  lemma {:induction false} CharsJoin(s: seq<Sextet>, t: seq<Sextet>)
    ensures Chars(s + t) == Chars(s) + Chars(t)
  {
    CharsAre(s);
    CharsAre(t);
    CharsAre(s + t);
  }

  lemma GroupFirst(x: Byte, y: Byte, z: Byte, rest: Bytes)
    ensures EncodeBase64([x, y, z] + rest) == EncodeBase64([x, y, z]) + EncodeBase64(rest)
  {
    hide Chars;
    var b: Bytes := [x, y, z];
    assert (b + rest)[3..] == rest && b[3..] == [];
    assert ToSextets(b + rest) == ToSextets(b) + ToSextets(rest);
    CharsJoin(ToSextets(b), ToSextets(rest));
  }

  lemma ThreeBytes(x: Byte, y: Byte, z: Byte)
    ensures var s := EncodeBase64([x, y, z]);
            && s == [SextetChar(x / 4), SextetChar(x % 4 * 16 + y / 16), SextetChar(y % 16 * 4 + z / 64), SextetChar(z % 64)]
            && Spells(s, x, y, z)
  {
    hide SextetChar;
    var a: Sextet, b: Sextet, c: Sextet, d: Sextet := x / 4, x % 4 * 16 + y / 16, y % 16 * 4 + z / 64, z % 64;
    var bytes: Bytes := [x, y, z];
    assert bytes[3..] == [];
    assert ToSextets(bytes) == [a, b, c, d];
    CharsAre([a, b, c, d]);
    AlphabetIs(a);
    AlphabetIs(b);
    AlphabetIs(c);
    AlphabetIs(d);
    assert ((a * 64 + b) * 64 + c) * 64 + d == (x * 256 + y) * 256 + z by { SameBits(x, y, z); }
  }

  lemma SameBits(x: Byte, y: Byte, z: Byte)
    ensures ((x / 4 * 64 + (x % 4 * 16 + y / 16)) * 64 + (y % 16 * 4 + z / 64)) * 64 + z % 64 == (x * 256 + y) * 256 + z
  {
  }

  /** A time is printed as the shortest decimal number, with a minus sign if it is before 1970. */
  lemma PrintIntMeans(n: int)
    ensures var s := PrintInt(n);
            var digits := if n < 0 then s[1..] else s;
            && (n < 0 ==> s[0] == 45)
            && |digits| >= 1 && (forall i | 0 <= i < |digits| :: 48 <= digits[i] <= 57)
            && (|digits| > 1 ==> digits[0] != 48)
            && DecimalValue(digits) == if n < 0 then -n else n
  {
    var m: nat := if n < 0 then -n else n;
    DigitsRoundTrip(m);
    NoLeadingZero(m);
    assert forall i | 0 <= i < |Digits(m)| :: IsDigit(Digits(m)[i]);
    if n < 0 {
      assert PrintInt(n)[1..] == Digits(m);
    }
  }

  lemma {:induction false} NoLeadingZero(n: nat)
    ensures |Digits(n)| >= 1 && (|Digits(n)| > 1 ==> Digits(n)[0] != 48) && (n > 0 ==> Digits(n)[0] != 48)
    decreases n
  {
    if n >= 10 {
      NoLeadingZero(n / 10);
    }
  }

  /** The value of decimal digits, most significant first: "-120" is how minus a hundred and twenty is printed. */
  lemma DecimalMeans()
    ensures DecimalValue([49, 50, 48]) == 120 && PrintInt(-120) == [45, 49, 50, 48] && PrintInt(0) == [48]
  {
    assert [49, 50, 48][..2] == [49, 50] && [49, 50][..1] == [49] && [49][..0] == [];
    assert DecimalValue([49]) == 1 && DecimalValue([49, 50]) == 12;
    assert Digits(12) == [49, 50] && Digits(120) == [49, 50, 48];
  }

  /** What an encoded cursor carries: the time in decimal, "|", and the ID. */
  lemma CursorCarries(createdAt: Nanos, id: Bytes)
    ensures DecodeBase64(EncodeCursor(createdAt, id)) == Some(PrintInt(createdAt) + ['|' as Byte] + id)
  {
    Base64RoundTrip(PrintInt(createdAt) + [BAR] + id);
  }

  /** Which strings are no cursors, and why. */
  lemma BadCursors(s: string, raw: Bytes)
    ensures DecodeCursor("") == Ok(None)
    ensures s != "" && DecodeBase64(s) == None ==> DecodeCursor(s) == Err(InvalidBase64)
    ensures s != "" && DecodeBase64(s) == Some(raw) && BAR !in raw ==> DecodeCursor(s) == Err(MalformedPayload)
    ensures raw == [] || raw[0] == BAR ==> s != "" && DecodeBase64(s) == Some(raw) ==>
              DecodeCursor(s) == if raw == [] then Err(MalformedPayload) else Err(InvalidTimestamp)
  {
    if DecodeBase64(s) == Some(raw) && BAR !in raw {
      assert FirstBar(raw) == |raw|;
    }
  }

  /** A character outside the alphabet that is no line break, and a lone last character, spoil the encoding. */
  lemma {:induction false} BadBase64(s: string, c: char, t: string)
    requires !('A' <= c <= 'Z' || 'a' <= c <= 'z' || '0' <= c <= '9' || c in "-_\r\n")
    ensures DecodeBase64(s + [c] + t) == None
    ensures DecodeBase64("A") == None
  {
    SpoiledBy(s, c, t);
  }

  lemma {:induction false} SpoiledBy(s: string, c: char, t: string)
    requires CharSextet(c) == None && c != '\n' && c != '\r'
    ensures Sextets(StripNewlines(s + [c] + t)) == None
  {
    if s == "" {
      assert s + [c] + t == [c] + t;
    } else {
      SpoiledBy(s[1..], c, t);
      assert (s + [c] + t)[1..] == s[1..] + [c] + t;
    }
  }

  /** Line breaks anywhere in the encoding do not matter. */
  lemma {:induction false} LineBreaksIgnored(s: string, t: string)
    ensures DecodeBase64(s + "\n" + t) == DecodeBase64(s + "\r" + t) == DecodeBase64(s + t)
  {
    StrippedOf(s, "\n", t);
    StrippedOf(s, "\r", t);
  }

  lemma {:induction false} StrippedOf(s: string, c: string, t: string)
    requires c == "\n" || c == "\r"
    ensures StripNewlines(s + c + t) == StripNewlines(s + t)
  {
    if s == "" {
      assert (s + c + t)[1..] == t && s + t == t;
    } else {
      StrippedOf(s[1..], c, t);
      assert (s + c + t)[1..] == s[1..] + c + t && (s + t)[1..] == s[1..] + t;
    }
  }

  /** Only one sextet too many is an error; encoding what was decoded gives all sextets back, but the end of a short group. */
  ghost predicate Reencodes(s: seq<Sextet>) {
    && (FromSextets(s).None? <==> |s| % 4 == 1)
    && (FromSextets(s).Some? ==>
          var t := ToSextets(FromSextets(s).value);
          |t| == |s| && (forall i | 0 <= i < |s| - 1 :: t[i] == s[i]) && (|s| % 4 == 0 ==> t == s))
  }

  lemma {:induction false} FromSextetsMeans(s: seq<Sextet>)
    ensures Reencodes(s)
    decreases |s|
  {
    if |s| >= 4 {
      hide Reencodes;
      FromSextetsMeans(s[4..]);
      FourMore(s);
    } else if |s| == 3 {
      SextetsOf(s[0], s[1], s[2], 0);
    } else if |s| == 2 {
      SextetsOf(s[0], s[1], 0, 0);
    }
  }

  lemma FourMore(s: seq<Sextet>)
    requires |s| >= 4 && Reencodes(s[4..])
    ensures Reencodes(s)
  {
    hide FromSextets, ToSextets;
    NoneOrFour(s);
    if FromSextets(s).Some? {
      FourFirst(s);
      assert s == s[..4] + s[4..];
    }
  }

  lemma NoneOrFour(s: seq<Sextet>)
    requires |s| >= 4
    ensures FromSextets(s).None? <==> FromSextets(s[4..]).None?
  {
    hide FirstByte, SecondByte, ThirdByte;
  }

  lemma FourFirst(s: seq<Sextet>)
    requires |s| >= 4 && FromSextets(s[4..]).Some?
    ensures FromSextets(s).Some?
    ensures ToSextets(FromSextets(s).value) == s[..4] + ToSextets(FromSextets(s[4..]).value)
  {
    hide ToSextets, FromSextets, FirstByte, SecondByte, ThirdByte;
    FromFour(s);
    SextetsBack(s[0], s[1], s[2], s[3], FromSextets(s[4..]).value);
    assert s[..4] == [s[0], s[1], s[2], s[3]];
  }

  lemma FromFour(s: seq<Sextet>)
    requires |s| >= 4 && FromSextets(s[4..]).Some?
    ensures FromSextets(s) == Some([FirstByte(s[0], s[1]), SecondByte(s[1], s[2]), ThirdByte(s[2], s[3])] + FromSextets(s[4..]).value)
  {
    hide FirstByte, SecondByte, ThirdByte;
  }

  lemma SextetsBack(a: Sextet, b: Sextet, c: Sextet, d: Sextet, rest: Bytes)
    ensures ToSextets([FirstByte(a, b), SecondByte(b, c), ThirdByte(c, d)] + rest) == [a, b, c, d] + ToSextets(rest)
  {
    hide ToSextets, FirstByte, SecondByte, ThirdByte;
    SextetsOf(a, b, c, d);
    GroupSextets(FirstByte(a, b), SecondByte(b, c), ThirdByte(c, d), rest);
  }

  lemma GroupSextets(x: Byte, y: Byte, z: Byte, rest: Bytes)
    ensures ToSextets([x, y, z] + rest) == [x / 4, x % 4 * 16 + y / 16, y % 16 * 4 + z / 64, z % 64] + ToSextets(rest)
  {
    assert ([x, y, z] + rest)[3..] == rest;
  }

  lemma SextetsOf(a: Sextet, b: Sextet, c: Sextet, d: Sextet)
    ensures FirstByte(a, b) / 4 == a && FirstByte(a, b) % 4 == b / 16
    ensures SecondByte(b, c) / 16 == b % 16 && SecondByte(b, c) % 16 == c / 4
    ensures ThirdByte(c, d) / 64 == c % 4 && ThirdByte(c, d) % 64 == d
    ensures b / 16 * 16 + b % 16 == b && c / 4 * 4 + c % 4 == c
    ensures FirstByte(a, b) % 4 * 16 + SecondByte(b, c) / 16 == b && SecondByte(b, c) % 16 * 4 + ThirdByte(c, d) / 64 == c
  {
  }

  lemma {:induction false} CharsOfSextets(s: string)
    requires Sextets(s).Some?
    ensures Chars(Sextets(s).value) == s
  {
    if s != "" {
      CharsOfSextets(s[1..]);
      assert Sextets(s).value[1..] == Sextets(s[1..]).value;
      assert s == [s[0]] + s[1..];
    }
  }

  lemma {:induction false} NothingToStrip(s: string)
    requires '\n' !in s && '\r' !in s
    ensures StripNewlines(s) == s
  {
    if s != "" {
      assert s[0] in s && s == [s[0]] + s[1..];
      NothingToStrip(s[1..]);
    }
  }

  /** A string that decodes is the encoding of what it decodes to, but for the unused bits of its last character. */
  lemma DecodeMeans(s: string)
    requires '\n' !in s && '\r' !in s && DecodeBase64(s).Some?
    ensures var t := EncodeBase64(DecodeBase64(s).value);
            |t| == |s| && (forall i | 0 <= i < |s| - 1 :: t[i] == s[i]) && (|s| % 4 == 0 ==> t == s)
    ensures |s| % 4 != 1
  {
    NothingToStrip(s);
    CharsOfSextets(s);
    var sextets := Sextets(s).value;
    FromSextetsMeans(sextets);
    var t := ToSextets(DecodeBase64(s).value);
    CharsAre(sextets);
    CharsAre(t);
  }

  predicate IsBlank(b: Byte) {
    b == 32 || (9 <= b <= 13 && b != 10)
  }

  /** A time starts with decimal digits, after blanks and with anything but a digit behind; that much has to fit 64 bits. */
  lemma ScanMeans(blanks: Bytes, digits: Bytes, rest: Bytes)
    requires forall b | b in blanks :: IsBlank(b)
    requires (forall i | 0 <= i < |digits| :: IsDigit(digits[i])) && (rest != [] ==> !IsDigit(rest[0]))
    ensures var s := blanks + (digits + rest);
            && (digits != [] ==> ScanInt64(s) == InInt64(DecimalValue(digits)))
            && (digits == [] && (rest == [] || (!IsBlank(rest[0]) && rest[0] != 43 && rest[0] != 45)) ==> ScanInt64(s) == None)
  {
    hide SkipBlanks, DecimalValue, ScanInt64;
    var t := digits + rest;
    assert digits != [] ==> t[0] == digits[0];
    assert digits == [] ==> t == rest;
    if digits != [] || rest == [] || (!IsBlank(rest[0]) && rest[0] != 43 && rest[0] != 45) {
      BlanksSkipped(blanks, t);
      ScanFrom(blanks + t, t, digits, rest);
    }
  }

  /** The digits may have a plus or a minus sign, but have to follow it at once. */
  lemma ScanSigned(blanks: Bytes, sign: Byte, digits: Bytes, rest: Bytes)
    requires (forall b | b in blanks :: IsBlank(b)) && (sign == 43 || sign == 45)
    requires (forall i | 0 <= i < |digits| :: IsDigit(digits[i])) && (rest != [] ==> !IsDigit(rest[0]))
    ensures ScanInt64(blanks + ([sign] + (digits + rest)))
            == if digits == [] then None else InInt64(if sign == 45 then 0 - DecimalValue(digits) else DecimalValue(digits))
  {
    hide SkipBlanks, DecimalValue, ScanInt64;
    var t := [sign] + (digits + rest);
    assert t[1..] == digits + rest;
    BlanksSkipped(blanks, t);
    ScanFrom(blanks + t, t, digits, rest);
  }

  function InInt64(n: int): Option<Nanos> {
    if -9223372036854775808 <= n <= 9223372036854775807 then Some(n) else None
  }

  lemma ScanFrom(s: Bytes, t: Bytes, digits: Bytes, rest: Bytes)
    requires SkipBlanks(s) == t
    requires (if t != [] && (t[0] == 43 || t[0] == 45) then t[1..] else t) == digits + rest
    requires (forall i | 0 <= i < |digits| :: IsDigit(digits[i])) && (rest != [] ==> !IsDigit(rest[0]))
    ensures digits == [] ==> ScanInt64(s) == None
    ensures digits != [] ==>
              var n := if t[0] == 45 then 0 - DecimalValue(digits) else DecimalValue(digits);
              ScanInt64(s) == InInt64(n)
  {
    hide SkipBlanks, DigitRun, DecimalValue;
    RunOf(digits, rest);
    assert (digits + rest)[..|digits|] == digits;
  }

  lemma {:induction false} BlanksSkipped(blanks: Bytes, t: Bytes)
    requires (forall b | b in blanks :: IsBlank(b)) && (t == [] || !IsBlank(t[0]))
    ensures SkipBlanks(blanks + t) == t
  {
    if blanks == [] {
      assert blanks + t == t;
    } else {
      assert blanks[0] in blanks && blanks == [blanks[0]] + blanks[1..];
      assert (blanks + t)[1..] == blanks[1..] + t;
      BlanksSkipped(blanks[1..], t);
    }
  }

  lemma {:induction false} RunOf(digits: Bytes, rest: Bytes)
    requires (forall i | 0 <= i < |digits| :: IsDigit(digits[i])) && (rest != [] ==> !IsDigit(rest[0]))
    ensures DigitRun(digits + rest) == |digits|
  {
    var s := digits + rest;
    assert forall i | 0 <= i < |digits| :: s[i] == digits[i];
    assert rest != [] ==> s[|digits|] == rest[0];
  }
}
