/**
 * Python's `int(x)` for a `str` argument and the default base 10, as CPython
 * 3.12 implements it: every character that str.isspace() accepts outside
 * ASCII, and every decimal digit outside ASCII, is first replaced by its
 * ASCII counterpart; then the text may have surrounding whitespace, one sign,
 * and one or more digits with single underscores between digits; and at most
 * 4300 digits are converted. Anything else raises ValueError, written here
 * as `None`.
 */
module PyInt {
  import opened Wrappers

  /** The default of `sys.get_int_max_str_digits()`: longer digit strings raise ValueError. */
  const MaxStrDigits: nat := 4300

  /**
   * The whitespace that int() skips: ASCII tab, line feed, vertical tab, form
   * feed, carriage return and space, and the non-ASCII characters that
   * str.isspace() accepts. The ASCII separators 0x1C-0x1F are not in it:
   * str.isspace() accepts them but int() does not.
   */
  predicate IsSpace(c: char)
  {
    '\t' <= c <= '\r' || c == ' '
    || c == '\U{85}' || c == '\U{A0}' || c == '\U{1680}' || '\U{2000}' <= c <= '\U{200A}'
    || c == '\U{2028}' || c == '\U{2029}' || c == '\U{202F}' || c == '\U{205F}' || c == '\U{3000}'
  }

  /** The number of blocks of ten decimal digits (Unicode 15.0, category Nd), ASCII included. */
  const DecimalBlocks: nat := 68

  /** The code point of the zero of block `k`, in increasing order; block 0 is ASCII '0'-'9'. */
  function BlockZero(k: nat): int
    requires k < DecimalBlocks
  {
    if k == 0 then 0x30 else
    if k == 1 then 0x660 else
    if k == 2 then 0x6F0 else
    if k == 3 then 0x7C0 else
    if k == 4 then 0x966 else
    if k == 5 then 0x9E6 else
    if k == 6 then 0xA66 else
    if k == 7 then 0xAE6 else
    if k == 8 then 0xB66 else
    if k == 9 then 0xBE6 else
    if k == 10 then 0xC66 else
    if k == 11 then 0xCE6 else
    if k == 12 then 0xD66 else
    if k == 13 then 0xDE6 else
    if k == 14 then 0xE50 else
    if k == 15 then 0xED0 else
    if k == 16 then 0xF20 else
    if k == 17 then 0x1040 else
    if k == 18 then 0x1090 else
    if k == 19 then 0x17E0 else
    if k == 20 then 0x1810 else
    if k == 21 then 0x1946 else
    if k == 22 then 0x19D0 else
    if k == 23 then 0x1A80 else
    if k == 24 then 0x1A90 else
    if k == 25 then 0x1B50 else
    if k == 26 then 0x1BB0 else
    if k == 27 then 0x1C40 else
    if k == 28 then 0x1C50 else
    if k == 29 then 0xA620 else
    if k == 30 then 0xA8D0 else
    if k == 31 then 0xA900 else
    if k == 32 then 0xA9D0 else
    if k == 33 then 0xA9F0 else
    if k == 34 then 0xAA50 else
    if k == 35 then 0xABF0 else
    if k == 36 then 0xFF10 else
    if k == 37 then 0x104A0 else
    if k == 38 then 0x10D30 else
    if k == 39 then 0x11066 else
    if k == 40 then 0x110F0 else
    if k == 41 then 0x11136 else
    if k == 42 then 0x111D0 else
    if k == 43 then 0x112F0 else
    if k == 44 then 0x11450 else
    if k == 45 then 0x114D0 else
    if k == 46 then 0x11650 else
    if k == 47 then 0x116C0 else
    if k == 48 then 0x11730 else
    if k == 49 then 0x118E0 else
    if k == 50 then 0x11950 else
    if k == 51 then 0x11C50 else
    if k == 52 then 0x11D50 else
    if k == 53 then 0x11DA0 else
    if k == 54 then 0x11F50 else
    if k == 55 then 0x16A60 else
    if k == 56 then 0x16AC0 else
    if k == 57 then 0x16B50 else
    if k == 58 then 0x1D7CE else
    if k == 59 then 0x1D7D8 else
    if k == 60 then 0x1D7E2 else
    if k == 61 then 0x1D7EC else
    if k == 62 then 0x1D7F6 else
    if k == 63 then 0x1E140 else
    if k == 64 then 0x1E2F0 else
    if k == 65 then 0x1E4F0 else
    if k == 66 then 0x1E950 else
    0x1FBF0
  }

  /** Code point `n` lies in one of the blocks `k`, `k + 1`, ... */
  predicate InBlocksFrom(n: int, k: nat)
    decreases DecimalBlocks - k
  {
    k < DecimalBlocks && (BlockZero(k) <= n <= BlockZero(k) + 9 || InBlocksFrom(n, k + 1))
  }

  /** The zero of the block, from `k` on, that holds code point `n`. */
  function ZeroOf(n: int, k: nat): (z: int)
    requires InBlocksFrom(n, k)
    ensures z <= n <= z + 9
    decreases DecimalBlocks - k
  {
    if BlockZero(k) <= n <= BlockZero(k) + 9 then BlockZero(k) else ZeroOf(n, k + 1)
  }

  /** A decimal digit: ASCII '0'-'9' or a digit of one of the other blocks, which int() reads as its ASCII counterpart. */
  predicate IsDecimal(c: char)
  {
    InBlocksFrom(c as int, 0)
  }

  /** The digit value of a decimal digit: its distance from the zero of its block. */
  function DigitValue(c: char): (d: nat)
    requires IsDecimal(c)
    ensures d < 10
    ensures '0' <= c <= '9' ==> d == c as int - '0' as int
  {
    c as int - ZeroOf(c as int, 0)
  }

  /** Every block after the ASCII one lies above U+065F and clear of the non-ASCII whitespace. */
  lemma BlockBounds(k: nat)
    requires 0 < k < DecimalBlocks
    ensures 0x660 <= BlockZero(k)
    ensures BlockZero(k) + 9 < 0x1680 || (0x1680 < BlockZero(k) && BlockZero(k) + 9 < 0x2000) || 0x3000 < BlockZero(k)
  {
  }

  /** A code point in a block after the ASCII one is neither ASCII nor whitespace. */
  lemma {:induction false} LaterBlocks(n: int, k: nat)
    requires 0 < k && InBlocksFrom(n, k)
    ensures 0x660 <= n && (n < 0x1680 || 0x1680 < n < 0x2000 || 0x3000 < n)
    decreases DecimalBlocks - k
  {
    BlockBounds(k);
    if !(BlockZero(k) <= n <= BlockZero(k) + 9) {
      LaterBlocks(n, k + 1);
    }
  }

  /** Digits are never whitespace. */
  lemma DecimalFacts(c: char)
    requires IsDecimal(c)
    ensures !IsSpace(c)
  {
    if !('0' <= c <= '9') {
      LaterBlocks(c as int, 1);
    }
  }

  /** Below U+0660 only ASCII '0'-'9' are digits. */
  lemma NotDecimal(c: char)
    requires c as int < 0x660 && !('0' <= c <= '9')
    ensures !IsDecimal(c)
  {
    if InBlocksFrom(c as int, 1) {
      LaterBlocks(c as int, 1);
    }
  }

  /** The ASCII digit for a value below ten. */
  function AsciiDigit(d: nat): (c: char)
    requires d < 10
    ensures '0' <= c <= '9' && IsDecimal(c) && DigitValue(c) == d
  {
    ('0' as int + d) as char
  }

  predicate AllSpace(s: string)
  {
    forall i :: 0 <= i < |s| ==> IsSpace(s[i])
  }

  predicate AllDecimal(s: string)
  {
    forall i :: 0 <= i < |s| ==> IsDecimal(s[i])
  }

  /**
   * What int() accepts between the sign and the trailing whitespace: digits
   * and underscores, a digit first and last, and never two underscores in a
   * row, so that every underscore stands between two digits.
   */
  predicate IsDigitRun(s: string)
  {
    && |s| > 0
    && IsDecimal(s[0])
    && IsDecimal(s[|s| - 1])
    && (forall i :: 0 <= i < |s| ==> IsDecimal(s[i]) || s[i] == '_')
    && (forall i, j {:trigger s[i], s[j]} :: 0 <= i < |s| && 0 <= j < |s| && j == i + 1 ==> s[i] != '_' || s[j] != '_')
  }

  /** The digits of a digit run, underscores dropped. */
  function DigitsOf(s: string): (ds: string)
    ensures AllDecimal(ds) && |ds| <= |s|
    ensures AllDecimal(s) ==> ds == s
  {
    if s == [] then []
    else if IsDecimal(s[|s| - 1]) then DigitsOf(s[..|s| - 1]) + [s[|s| - 1]]
    else DigitsOf(s[..|s| - 1])
  }

  /** The number a string of decimal digits denotes, most significant digit first. */
  function DecimalValue(ds: string): nat
    requires AllDecimal(ds)
  {
    if ds == [] then 0 else DecimalValue(ds[..|ds| - 1]) * 10 + DigitValue(ds[|ds| - 1])
  }

  /** `s.lstrip()` as int() does it: `s` without its leading whitespace. */
  function LStrip(s: string): string
  {
    if s != [] && IsSpace(s[0]) then LStrip(s[1..]) else s
  }

  /** `s.rstrip()` as int() does it: `s` without its trailing whitespace. */
  function RStrip(s: string): string
  {
    if s != [] && IsSpace(s[|s| - 1]) then RStrip(s[..|s| - 1]) else s
  }

  /** The text after an optional leading '+' or '-'. */
  function Unsigned(t: string): (body: string)
  {
    if |t| > 0 && (t[0] == '+' || t[0] == '-') then t[1..] else t
  }

  /** What int() makes of the text after the sign: the value of a digit run that is not too long. */
  function ParseDigits(body: string): Option<nat>
  {
    if IsDigitRun(body) && |DigitsOf(body)| <= MaxStrDigits then Some(DecimalValue(DigitsOf(body))) else None
  }

  /** What int() makes of the text once the whitespace around it is gone. */
  function ParseSigned(t: string): Option<int>
  {
    match ParseDigits(Unsigned(t))
    case None => None
    case Some(v) =>
      var n: int := v;
      Some(if |t| > 0 && t[0] == '-' then -n else n)
  }

  /**
   * `int(s)`: the integer the text denotes, or `None` where Python raises
   * ValueError. The sign is the first character left after stripping, so
   * text without a '-' never denotes a negative number.
   */
  function ParseInt(s: string): (r: Option<int>)
    ensures r.Some? && '-' !in s ==> r.value >= 0
  {
    var l := LStrip(s);
    var t := RStrip(l);
    LStripShape(s);
    RStripShape(l);
    assert |t| > 0 ==> t[0] == l[0] == s[|s| - |l|];
    ParseSigned(t)
  }

  /** Python's `str(n)` for a natural number: its decimal digits without leading zeros. */
  function DecimalString(n: nat): (s: string)
    ensures |s| > 0 && AllDecimal(s)
    ensures forall i :: 0 <= i < |s| ==> '0' <= s[i] <= '9'
    ensures n > 0 ==> s[0] != '0'
  {
    if n < 10 then [AsciiDigit(n)] else DecimalString(n / 10) + [AsciiDigit(n % 10)]
  }

  /** `n` zero digits. */
  function Zeros(n: nat): (s: string)
    ensures |s| == n && AllDecimal(s)
  {
    seq(n, _ => '0')
  }

  // ---------------------------------------------------------------------------
  // Properties of the digit arithmetic
  // ---------------------------------------------------------------------------

  /** Reading the decimal string of `n` gives `n` back. */
  lemma {:induction false} DecimalStringValue(n: nat)
    ensures DecimalValue(DecimalString(n)) == n
  {
    if n >= 10 {
      DecimalStringValue(n / 10);
      var s := DecimalString(n);
      assert s[..|s| - 1] == DecimalString(n / 10);
    }
  }

  /** Leading zeros do not change the value of a digit string. */
  lemma {:induction false} LeadingZerosValue(z: nat, ds: string)
    requires AllDecimal(ds)
    ensures DecimalValue(Zeros(z) + ds) == DecimalValue(ds)
    decreases |ds|
  {
    var s := Zeros(z) + ds;
    if ds == [] {
      assert s == Zeros(z);
      ZerosValue(z);
    } else {
      assert s[..|s| - 1] == Zeros(z) + ds[..|ds| - 1];
      LeadingZerosValue(z, ds[..|ds| - 1]);
    }
  }

  /** Any number of zeros denotes 0. */
  lemma {:induction false} ZerosValue(z: nat)
    ensures DecimalValue(Zeros(z)) == 0
  {
    if z > 0 {
      assert Zeros(z)[..z - 1] == Zeros(z - 1);
      ZerosValue(z - 1);
    }
  }

  // ---------------------------------------------------------------------------
  // What int() accepts and what it rejects
  // ---------------------------------------------------------------------------

  /** Whitespace in front of a non-space start is skipped. */
  lemma {:induction false} LStripSkipsSpaces(w: string, u: string)
    requires AllSpace(w)
    requires u != [] && !IsSpace(u[0])
    ensures LStrip(w + u) == u
    decreases |w|
  {
    if w != [] {
      assert (w + u)[1..] == w[1..] + u;
      LStripSkipsSpaces(w[1..], u);
    } else {
      assert w + u == u;
    }
  }

  /** Whitespace after a non-space end is dropped. */
  lemma {:induction false} RStripDropsSpaces(u: string, w: string)
    requires AllSpace(w)
    requires u != [] && !IsSpace(u[|u| - 1])
    ensures RStrip(u + w) == u
    decreases |w|
  {
    if w != [] {
      assert (u + w)[..|u + w| - 1] == u + w[..|w| - 1];
      RStripDropsSpaces(u, w[..|w| - 1]);
    } else {
      assert u + w == u;
    }
  }

  /** A sign, if any, followed by a digit run, is what stripping a well-formed literal leaves. */
  lemma StrippedLiteral(w1: string, sign: string, body: string, w2: string)
    requires AllSpace(w1) && AllSpace(w2)
    requires sign == "" || sign == "+" || sign == "-"
    requires IsDigitRun(body)
    ensures RStrip(LStrip(w1 + sign + body + w2)) == sign + body
  {
    var u := sign + body;
    DecimalFacts(body[0]);
    DecimalFacts(body[|body| - 1]);
    assert u[0] == (if sign == "" then body[0] else sign[0]);
    assert u[|u| - 1] == body[|body| - 1];
    assert w1 + sign + body + w2 == w1 + (u + w2);
    LStripSkipsSpaces(w1, u + w2);
    RStripDropsSpaces(u, w2);
  }

  /** A sign, if any, comes off a digit run whole. */
  lemma SignOff(sign: string, body: string)
    requires sign == "" || sign == "+" || sign == "-"
    requires IsDigitRun(body)
    ensures Unsigned(sign + body) == body
  {
    NotDecimal('+');
    NotDecimal('-');
    if sign != "" {
      assert (sign + body)[1..] == body;
    } else {
      assert sign + body == body;
    }
  }

  /** A sign, if any, followed by a digit run, denotes the signed value of its digits, when there are not too many. */
  lemma SignedRun(sign: string, body: string)
    requires sign == "" || sign == "+" || sign == "-"
    requires IsDigitRun(body)
    ensures |DigitsOf(body)| <= MaxStrDigits && sign != "-" ==> ParseSigned(sign + body) == Some(DecimalValue(DigitsOf(body)))
    ensures |DigitsOf(body)| <= MaxStrDigits && sign == "-" ==> ParseSigned(sign + body) == Some(-(DecimalValue(DigitsOf(body)) as int))
    ensures |DigitsOf(body)| > MaxStrDigits ==> ParseSigned(sign + body) == None
  {
    SignOff(sign, body);
    var t := sign + body;
    assert |t| > 0 && t[0] == '-' <==> sign == "-";
    if |DigitsOf(body)| <= MaxStrDigits {
      assert ParseDigits(Unsigned(t)) == Some(DecimalValue(DigitsOf(body)));
    } else {
      assert ParseDigits(Unsigned(t)) == None;
    }
  }

  /**
   * int() accepts optional whitespace, an optional sign, and a digit run of
   * at most MaxStrDigits digits, and returns the signed value of the digits.
   */
  lemma LiteralParses(w1: string, sign: string, body: string, w2: string)
    requires AllSpace(w1) && AllSpace(w2)
    requires sign == "" || sign == "+" || sign == "-"
    requires IsDigitRun(body) && |DigitsOf(body)| <= MaxStrDigits
    ensures sign != "-" ==> ParseInt(w1 + sign + body + w2) == Some(DecimalValue(DigitsOf(body)))
    ensures sign == "-" ==> ParseInt(w1 + sign + body + w2) == Some(-(DecimalValue(DigitsOf(body)) as int))
  {
    StrippedLiteral(w1, sign, body, w2);
    SignedRun(sign, body);
  }

  /** More than MaxStrDigits digits raise ValueError, however well-formed the literal. */
  lemma TooManyDigits(w1: string, sign: string, body: string, w2: string)
    requires AllSpace(w1) && AllSpace(w2)
    requires sign == "" || sign == "+" || sign == "-"
    requires IsDigitRun(body) && |DigitsOf(body)| > MaxStrDigits
    ensures ParseInt(w1 + sign + body + w2) == None
  {
    StrippedLiteral(w1, sign, body, w2);
    SignedRun(sign, body);
  }

  /** A non-empty string of digits is a digit run. */
  lemma DecimalRun(s: string)
    requires |s| > 0 && AllDecimal(s)
    ensures IsDigitRun(s)
  {
    forall i | 0 <= i < |s|
      ensures s[i] != '_'
    {
      NotDecimal('_');
    }
  }

  /** `int(str(n)) == n`, padded with whitespace, a '+' and leading zeros. */
  lemma PaddedNumberParses(w1: string, plus: bool, z: nat, n: nat, w2: string)
    requires AllSpace(w1) && AllSpace(w2)
    requires z + |DecimalString(n)| <= MaxStrDigits
    ensures ParseInt(w1 + (if plus then "+" else "") + Zeros(z) + DecimalString(n) + w2) == Some(n)
  {
    var sign := if plus then "+" else "";
    var body := Zeros(z) + DecimalString(n);
    var s := w1 + sign + Zeros(z) + DecimalString(n) + w2;
    assert s == w1 + sign + body + w2;
    assert AllDecimal(body);
    DecimalRun(body);
    assert DigitsOf(body) == body;
    LiteralParses(w1, sign, body, w2);
    LeadingZerosValue(z, DecimalString(n));
    DecimalStringValue(n);
    assert ParseInt(s) == Some(n);
  }

  /** Text that int() accepts, once stripped, holds only digits, underscores and a leading sign. */
  lemma StrippedCharacters(t: string, j: nat)
    requires j < |t| && ParseSigned(t).Some?
    ensures IsDecimal(t[j]) || t[j] == '_' || (j == 0 && (t[j] == '+' || t[j] == '-'))
  {
  }

  /** LStrip keeps a suffix that does not start with whitespace, and removes only whitespace. */
  lemma {:induction false} LStripShape(s: string)
    ensures |LStrip(s)| <= |s| && LStrip(s) == s[|s| - |LStrip(s)|..]
    ensures AllSpace(s[..|s| - |LStrip(s)|])
    ensures LStrip(s) != [] ==> !IsSpace(LStrip(s)[0])
    decreases |s|
  {
    if s != [] && IsSpace(s[0]) {
      LStripShape(s[1..]);
      var r := LStrip(s[1..]);
      assert s[..|s| - |r|] == [s[0]] + s[1..][..|s| - 1 - |r|];
    }
  }

  /** RStrip keeps a prefix that does not end with whitespace, and removes only whitespace. */
  lemma {:induction false} RStripShape(s: string)
    ensures |RStrip(s)| <= |s| && RStrip(s) == s[..|RStrip(s)|]
    ensures AllSpace(s[|RStrip(s)|..])
    ensures RStrip(s) != [] ==> !IsSpace(RStrip(s)[|RStrip(s)| - 1])
    decreases |s|
  {
    if s != [] && IsSpace(s[|s| - 1]) {
      RStripShape(s[..|s| - 1]);
      var r := RStrip(s[..|s| - 1]);
      assert s[|r|..] == s[..|s| - 1][|r|..] + [s[|s| - 1]];
    }
  }

  /** What LStrip removes is whitespace. */
  lemma {:induction false} LeadingSpace(s: string, i: nat)
    requires i < |s| - |LStrip(s)|
    ensures IsSpace(s[i])
  {
    var k := |s| - |LStrip(s)|;
    LStripShape(s);
    assert s[..k][i] == s[i];
  }

  /** What RStrip removes is whitespace. */
  lemma {:induction false} TrailingSpace(l: string, i: nat)
    requires |RStrip(l)| <= i < |l|
    ensures IsSpace(l[i])
  {
    var n := |RStrip(l)|;
    RStripShape(l);
    assert l[n..][i - n] == l[i];
  }

  /**
   * Stripping splits the text into leading whitespace, the stripped text and
   * trailing whitespace.
   */
  lemma {:induction false} StripParts(s: string, i: nat)
    requires i < |s|
    ensures var k := |s| - |LStrip(s)|;
            var t := RStrip(LStrip(s));
            && (i < k ==> IsSpace(s[i]))
            && (k <= i < k + |t| ==> s[i] == t[i - k])
            && (k + |t| <= i ==> IsSpace(s[i]))
  {
    var l := LStrip(s);
    var k := |s| - |l|;
    var t := RStrip(l);
    LStripShape(s);
    RStripShape(l);
    if i < k {
      LeadingSpace(s, i);
    } else {
      assert s[i] == l[i - k];
      if i < k + |t| {
        assert l[i - k] == t[i - k];
      } else {
        TrailingSpace(l, i - k);
      }
    }
  }

  /** A character of the text is whitespace or, where it lies in the stripped part, a character of that part. */
  lemma {:induction false} CharacterOfParts(s: string, i: nat, k: nat, t: string)
    requires i < |s|
    requires i < k || k + |t| <= i ==> IsSpace(s[i])
    requires k <= i < k + |t| ==> s[i] == t[i - k]
    requires forall j :: 0 <= j < |t| ==> IsDecimal(t[j]) || t[j] == '_' || t[j] == '+' || t[j] == '-'
    ensures IsSpace(s[i]) || IsDecimal(s[i]) || s[i] == '+' || s[i] == '-' || s[i] == '_'
  {
  }

  /** Every character int() accepts is whitespace, a digit, a sign or an underscore. */
  lemma {:induction false} AcceptedCharacters(s: string, i: nat)
    requires i < |s|
    requires ParseInt(s).Some?
    ensures IsSpace(s[i]) || IsDecimal(s[i]) || s[i] == '+' || s[i] == '-' || s[i] == '_'
  {
    LStripShape(s);
    var k := |s| - |LStrip(s)|;
    var t := RStrip(LStrip(s));
    StripParts(s, i);
    forall j | 0 <= j < |t|
      ensures IsDecimal(t[j]) || t[j] == '_' || t[j] == '+' || t[j] == '-'
    {
      StrippedCharacters(t, j);
    }
    CharacterOfParts(s, i, k, t);
  }

  /** int() needs at least one digit: empty, blank or digitless text raises ValueError. */
  lemma {:induction false} NeedsADigit(s: string)
    requires forall i :: 0 <= i < |s| ==> !IsDecimal(s[i])
    ensures ParseInt(s) == None
  {
    var l := LStrip(s);
    var k := |s| - |l|;
    var t := RStrip(l);
    LStripShape(s);
    RStripShape(l);
    var body := Unsigned(t);
    if body != [] {
      var j := if body == t then 0 else 1;
      assert body[0] == t[j] == l[j] == s[k + j];
    }
    assert !IsDigitRun(body);
  }

  /** Text made of whitespace, a sign or none, a digit run of at most MaxStrDigits digits, and whitespace. */
  predicate IsLiteral(s: string, w1: string, sign: string, body: string, w2: string)
  {
    && s == w1 + sign + body + w2
    && AllSpace(w1) && AllSpace(w2)
    && (sign == "" || sign == "+" || sign == "-")
    && IsDigitRun(body) && |DigitsOf(body)| <= MaxStrDigits
  }

  /** Stripped text that int() accepts is a sign or none followed by a digit run of at most MaxStrDigits digits. */
  lemma SignedRunOf(t: string) returns (sign: string, body: string)
    requires ParseSigned(t).Some?
    ensures sign == "" || sign == "+" || sign == "-"
    ensures t == sign + body
    ensures IsDigitRun(body) && |DigitsOf(body)| <= MaxStrDigits
  {
    body := Unsigned(t);
    assert ParseDigits(body).Some?;
    if |t| > 0 && (t[0] == '+' || t[0] == '-') {
      sign := [t[0]];
      assert t == [t[0]] + t[1..];
    } else {
      sign := "";
      assert t == "" + t;
    }
  }

  /** The text is its stripped part with the whitespace that stripping removed on either side. */
  lemma {:induction false} StripSplit(s: string) returns (w1: string, w2: string)
    ensures AllSpace(w1) && AllSpace(w2)
    ensures s == w1 + RStrip(LStrip(s)) + w2
  {
    var l := LStrip(s);
    var t := RStrip(l);
    LStripShape(s);
    RStripShape(l);
    w1 := s[..|s| - |l|];
    w2 := l[|t|..];
    assert l == t + w2;
    assert s == w1 + l;
  }

  /** Whitespace, a sign and a digit run put together make a literal. */
  lemma {:induction false} LiteralOfParts(s: string, w1: string, t: string, w2: string, sign: string, body: string)
    requires s == w1 + t + w2 && t == sign + body
    requires AllSpace(w1) && AllSpace(w2)
    requires sign == "" || sign == "+" || sign == "-"
    requires IsDigitRun(body) && |DigitsOf(body)| <= MaxStrDigits
    ensures IsLiteral(s, w1, sign, body, w2)
  {
  }

  /**
   * The converse of LiteralParses: every text int() accepts is whitespace, a
   * sign or none, a digit run of at most MaxStrDigits digits, and whitespace.
   */
  lemma {:induction false} ParsedIsLiteral(s: string)
    requires ParseInt(s).Some?
    ensures exists w1, sign, body, w2 :: IsLiteral(s, w1, sign, body, w2)
  {
    var t := RStrip(LStrip(s));
    var w1, w2 := StripSplit(s);
    var sign, body := SignedRunOf(t);
    LiteralOfParts(s, w1, t, w2, sign, body);
  }
}
