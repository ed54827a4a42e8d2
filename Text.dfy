/** Text helpers that type inference and sorting rely on: whitespace trimming,
    ASCII case folding, the numeral grammar and code-point string order. */
module Text {
  import opened Values

  predicate IsDigit(c: char) { '0' <= c <= '9' }

  predicate AllDigits(s: string) {
    forall k :: 0 <= k < |s| ==> IsDigit(s[k])
  }

  /** The characters JavaScript's `trim` and `\s` treat as white space, decided
      by range first: below U+00A0 they are space and the run tab, line feed,
      vertical tab, form feed, carriage return (U+0009 to U+000D); above it
      the no-break space, the other space separators, the line and paragraph
      separators and the byte-order mark. `SpaceCharacters` lists them one by one. */
  predicate IsSpace(c: char) {
    if c < '\U{00A0}' then c == ' ' || '\t' <= c <= '\r'
    else
      || c == '\U{00A0}' || c == '\U{1680}' || ('\U{2000}' <= c <= '\U{200A}')
      || c == '\U{2028}' || c == '\U{2029}' || c == '\U{202F}' || c == '\U{205F}'
      || c == '\U{3000}' || c == '\U{FEFF}'
  }

  /** White space is exactly these characters: tab, vertical tab, form feed,
      space, no-break space, byte-order mark, every space separator, and the
      line terminators line feed, carriage return, line and paragraph separator. */
  lemma SpaceCharacters(c: char)
    ensures IsSpace(c) <==>
      || c == '\t' || c == '\U{000B}' || c == '\U{000C}' || c == ' ' || c == '\U{00A0}' || c == '\U{FEFF}'
      || c == '\U{1680}' || ('\U{2000}' <= c <= '\U{200A}') || c == '\U{202F}' || c == '\U{205F}' || c == '\U{3000}'
      || c == '\n' || c == '\r' || c == '\U{2028}' || c == '\U{2029}'
  {
  }

  /** No character a numeral is written with is white space. */
  lemma NumeralCharNotSpace(c: char)
    requires IsDigit(c) || c == '+' || c == '-' || c == '.' || c == 'e' || c == 'E'
    ensures !IsSpace(c)
  {
  }

  predicate AllSpace(s: string) {
    forall k :: 0 <= k < |s| ==> IsSpace(s[k])
  }

  // ---------------------------------------------------------------- trimming

  /** Drops leading whitespace: the result is the suffix of `s` that starts at
      its first non-space character. */
  function TrimStart(s: string): (r: string)
    ensures |r| <= |s| && r == s[|s| - |r|..]
    ensures r == [] || !IsSpace(r[0])
  {
    if |s| > 0 && IsSpace(s[0]) then TrimStart(s[1..]) else s
  }

  /** Drops trailing whitespace: the result is the prefix of `s` that ends at
      its last non-space character. */
  function TrimEnd(s: string): (r: string)
    ensures |r| <= |s| && r == s[..|r|]
    ensures r == [] || !IsSpace(r[|r| - 1])
  {
    if |s| > 0 && IsSpace(s[|s| - 1]) then TrimEnd(s[..|s| - 1]) else s
  }

  /** What `TrimStart` drops is whitespace only. */
  lemma {:induction false} TrimStartDropsSpace(s: string)
    ensures AllSpace(s[..|s| - |TrimStart(s)|])
  {
    if |s| > 0 && IsSpace(s[0]) {
      var r := TrimStart(s[1..]);
      TrimStartDropsSpace(s[1..]);
      forall k | 0 < k < |s| - |r|
        ensures IsSpace(s[k])
      {
        assert s[k] == s[1..][..|s| - 1 - |r|][k - 1];
      }
    }
  }

  /** What `TrimEnd` drops is whitespace only. */
  lemma {:induction false} TrimEndDropsSpace(s: string)
    ensures AllSpace(s[|TrimEnd(s)|..])
  {
    if |s| > 0 && IsSpace(s[|s| - 1]) {
      var r := TrimEnd(s[..|s| - 1]);
      TrimEndDropsSpace(s[..|s| - 1]);
      forall k | |r| <= k < |s| - 1
        ensures IsSpace(s[k])
      {
        assert s[k] == s[..|s| - 1][|r|..][k - |r|];
      }
    }
  }

  function Trim(s: string): string {
    TrimEnd(TrimStart(s))
  }

  /** Text with no whitespace at either end. */
  predicate Trimmed(t: string) {
    t == [] || (!IsSpace(t[0]) && !IsSpace(t[|t| - 1]))
  }

  lemma {:induction false} TrimStartPadded(a: string, t: string)
    requires AllSpace(a) && (t == [] || !IsSpace(t[0]))
    ensures TrimStart(a + t) == t
  {
    if a != [] {
      assert (a + t)[1..] == a[1..] + t;
      TrimStartPadded(a[1..], t);
    }
  }

  lemma {:induction false} TrimEndPadded(t: string, b: string)
    requires AllSpace(b) && (t == [] || !IsSpace(t[|t| - 1]))
    ensures TrimEnd(t + b) == t
  {
    if b != [] {
      assert (t + b)[..|t + b| - 1] == t + b[..|b| - 1];
      TrimEndPadded(t, b[..|b| - 1]);
    }
  }

  /** Trimming removes exactly the surrounding whitespace: text without
      whitespace at its ends, padded with any whitespace, trims back to itself. */
  lemma TrimPadded(a: string, t: string, b: string)
    requires AllSpace(a) && AllSpace(b) && Trimmed(t)
    ensures Trim(a + t + b) == t
  {
    assert a + t + b == a + (t + b);
    if t == [] {
      assert t + b == b;
      TrimStartPadded(a, []);
      assert a + [] == a;
      assert TrimStart(a + b) == TrimStart(a + []) + [] by {
        assert AllSpace(a + b);
        AllSpaceTrimsAway(a + b);
        AllSpaceTrimsAway(a);
      }
    } else {
      TrimStartPadded(a, t + b);
      TrimEndPadded(t, b);
    }
  }

  /** Text with no whitespace at either end is left as it is. */
  lemma TrimTrimmed(t: string)
    requires Trimmed(t)
    ensures Trim(t) == t
  {
    TrimPadded([], t, []);
    assert [] + t + [] == t;
  }

  lemma {:induction false} AllSpaceTrimsAway(s: string)
    requires AllSpace(s)
    ensures TrimStart(s) == []
  {
    if s != [] {
      AllSpaceTrimsAway(s[1..]);
    }
  }

  /** Trimming is idempotent. */
  lemma TrimIdempotent(s: string)
    ensures Trimmed(Trim(s)) && Trim(Trim(s)) == Trim(s)
  {
    var u := TrimStart(s);
    TrimEndKeepsHead(u);
    TrimTrimmed(TrimEnd(u));
  }

  /** Trimming the end leaves the first character in place. */
  lemma TrimEndKeepsHead(u: string)
    ensures TrimEnd(u) == [] || TrimEnd(u)[0] == u[0]
  {
  }

  // ------------------------------------------------------------ case folding

  function LowerChar(c: char): char {
    if 'A' <= c <= 'Z' then (c as int + 32) as char else c
  }

  function Lower(s: string): (r: string)
    ensures |r| == |s|
  {
    seq(|s|, k requires 0 <= k < |s| => LowerChar(s[k]))
  }

  /** `true` or `false` in any mix of upper and lower case. */
  predicate IsBooleanWord(s: string) {
    Lower(s) == "true" || Lower(s) == "false"
  }

  // ---------------------------------------------------------- numeral grammar

  /** An exponent part: `e` or `E`, an optional sign, one or more digits. */
  datatype Exponent = NoExponent | Exponent(marker: char, sign: string, digits: string)

  /** A decimal or scientific numeral split into its parts:
      an optional sign, whole digits, an optional point with fraction digits,
      and an optional exponent. */
  datatype Numeral = Numeral(sign: string, whole: string, point: bool, frac: string, exponent: Exponent)

  predicate ValidSign(sign: string) { sign == [] || sign == "-" || sign == "+" }

  predicate ValidExponent(e: Exponent) {
    e.Exponent? ==>
      (e.marker == 'e' || e.marker == 'E') && ValidSign(e.sign) && AllDigits(e.digits) && |e.digits| >= 1
  }

  /** At least one digit, either before or after the point ("1", "1.", ".5", "1.5"). */
  predicate ValidNumeral(n: Numeral) {
    && ValidSign(n.sign)
    && AllDigits(n.whole)
    && AllDigits(n.frac)
    && (!n.point ==> n.frac == [])
    && |n.whole| + |n.frac| >= 1
    && ValidExponent(n.exponent)
  }

  function RenderExponent(e: Exponent): string {
    match e
    case NoExponent => []
    case Exponent(m, sign, digits) => [m] + sign + digits
  }

  /** Everything after the whole digits: point, fraction digits, exponent. */
  function RenderTail(n: Numeral): string {
    (if n.point then "." else []) + n.frac + RenderExponent(n.exponent)
  }

  function RenderNumeral(n: Numeral): string {
    n.sign + n.whole + RenderTail(n)
  }

  function SignPrefix(s: string): (r: string)
    ensures |r| <= |s| && ValidSign(r) && r == s[..|r|]
  {
    if |s| > 0 && (s[0] == '+' || s[0] == '-') then s[..1] else []
  }

  /** The longest run of digits at the start of `s`. */
  function DigitPrefix(s: string): (r: string)
    ensures |r| <= |s|
  {
    if |s| > 0 && IsDigit(s[0]) then [s[0]] + DigitPrefix(s[1..]) else []
  }

  /** `DigitPrefix` is a run of digits at the start of `s` that stops at the
      end of `s` or at its first non-digit. */
  lemma {:induction false} DigitPrefixSpec(s: string)
    ensures var r := DigitPrefix(s);
      r == s[..|r|] && AllDigits(r) && (|r| == |s| || !IsDigit(s[|r|]))
  {
    if |s| > 0 && IsDigit(s[0]) {
      DigitPrefixSpec(s[1..]);
    }
  }

  function ParseExponent(d: string): Option<Exponent> {
    if d == [] then Some(NoExponent)
    else if d[0] == 'e' || d[0] == 'E' then
      var sign := SignPrefix(d[1..]);
      var rest := d[1..][|sign|..];
      var digits := DigitPrefix(rest);
      if |digits| >= 1 && |digits| == |rest| then Some(Exponent(d[0], sign, digits)) else None
    else None
  }

  function ParseEnd(sign: string, whole: string, point: bool, frac: string, d: string): Option<Numeral> {
    if |whole| + |frac| == 0 then None
    else
      match ParseExponent(d)
      case None => None
      case Some(e) => Some(Numeral(sign, whole, point, frac, e))
  }

  function ParseFraction(sign: string, whole: string, b: string): Option<Numeral> {
    if |b| > 0 && b[0] == '.' then
      var frac := DigitPrefix(b[1..]);
      ParseEnd(sign, whole, true, frac, b[1..][|frac|..])
    else
      ParseEnd(sign, whole, false, [], b)
  }

  function ParseMantissa(sign: string, a: string): Option<Numeral> {
    var whole := DigitPrefix(a);
    ParseFraction(sign, whole, a[|whole|..])
  }

  /** Recognises the whole of `s` as a numeral, or fails. */
  function ParseNumeral(s: string): Option<Numeral> {
    var sign := SignPrefix(s);
    ParseMantissa(sign, s[|sign|..])
  }

  predicate IsNumeral(s: string) {
    ParseNumeral(s).Some?
  }

  lemma {:induction false} DigitPrefixOf(d: string, rest: string)
    requires AllDigits(d) && (rest == [] || !IsDigit(rest[0]))
    ensures DigitPrefix(d + rest) == d
  {
    if d != [] {
      assert (d + rest)[0] == d[0];
      assert (d + rest)[1..] == d[1..] + rest;
      DigitPrefixOf(d[1..], rest);
    } else {
      assert d + rest == rest;
    }
  }

  lemma ParseRenderExponent(e: Exponent)
    requires ValidExponent(e)
    ensures ParseExponent(RenderExponent(e)) == Some(e)
  {
    if e.Exponent? {
      ParseExponentParts(e.marker, e.sign, e.digits);
    }
  }

  /** A marker, a valid sign and a run of digits are read back as exactly those parts. */
  lemma ParseExponentParts(m: char, sign: string, digits: string)
    requires (m == 'e' || m == 'E') && ValidSign(sign) && AllDigits(digits) && |digits| >= 1
    ensures ParseExponent([m] + sign + digits) == Some(Exponent(m, sign, digits))
  {
    var d := [m] + sign + digits;
    var t := sign + digits;
    assert d == [m] + t && d[1..] == t && d[0] == m;
    SignOfConcat(sign, digits);
    var rest := d[1..][|SignPrefix(d[1..])|..];
    assert rest == digits;
    assert digits + [] == digits;
    DigitPrefixOf(digits, []);
  }

  lemma ExponentHead(e: Exponent)
    requires ValidExponent(e)
    ensures RenderExponent(e) == [] || RenderExponent(e)[0] == 'e' || RenderExponent(e)[0] == 'E'
  {
  }

  lemma ParseRenderPointTail(n: Numeral)
    requires ValidNumeral(n) && n.point
    ensures ParseFraction(n.sign, n.whole, RenderTail(n)) == Some(n)
  {
    var ex := RenderExponent(n.exponent);
    var c := n.frac + ex;
    var b := RenderTail(n);
    assert b == ['.'] + c;
    assert b[1..] == c;
    ExponentHead(n.exponent);
    DigitPrefixOf(n.frac, ex);
    assert c[|n.frac|..] == ex;
    ParseRenderExponent(n.exponent);
    assert ParseEnd(n.sign, n.whole, true, n.frac, ex) == Some(n);
  }

  lemma ParseRenderTail(n: Numeral)
    requires ValidNumeral(n)
    ensures ParseFraction(n.sign, n.whole, RenderTail(n)) == Some(n)
  {
    if n.point {
      ParseRenderPointTail(n);
    } else {
      ParseRenderExponent(n.exponent);
      ExponentHead(n.exponent);
      assert RenderTail(n) == RenderExponent(n.exponent);
    }
  }

  /** The text after the whole digits starts with a point, an exponent marker, or is empty. */
  lemma TailHead(n: Numeral)
    requires ValidNumeral(n)
    ensures RenderTail(n) == [] || RenderTail(n)[0] == '.' || RenderTail(n)[0] == 'e' || RenderTail(n)[0] == 'E'
  {
    ExponentHead(n.exponent);
    if !n.point {
      assert RenderTail(n) == RenderExponent(n.exponent);
    }
  }

  /** Every well-formed numeral, once written out, is recognised with the same parts. */
  lemma ParseRender(n: Numeral)
    requires ValidNumeral(n)
    ensures ParseNumeral(RenderNumeral(n)) == Some(n)
  {
    var s := RenderNumeral(n);
    SignPrefixRender(n);
    assert s[|n.sign|..] == n.whole + RenderTail(n);
    ParseMantissaRender(n);
  }

  /** The sign of a written-out numeral is read back first. */
  lemma SignPrefixRender(n: Numeral)
    requires ValidNumeral(n)
    ensures SignPrefix(RenderNumeral(n)) == n.sign
  {
    MantissaHead(n);
    ConcatAssoc(n.sign, n.whole, RenderTail(n));
    SignOfConcat(n.sign, n.whole + RenderTail(n));
  }

  lemma ConcatAssoc(x: string, y: string, z: string)
    ensures x + y + z == x + (y + z)
  {
  }

  /** Reading the sign off a valid sign followed by text that does not start
      with one gives back that sign. */
  lemma SignOfConcat(sign: string, a: string)
    requires ValidSign(sign) && (a == [] || (a[0] != '+' && a[0] != '-'))
    ensures SignPrefix(sign + a) == sign
  {
    if sign != [] {
      assert (sign + a)[0] == sign[0] && (sign + a)[..1] == sign;
    } else {
      assert sign + a == a;
    }
  }

  /** The mantissa of a numeral starts with a digit, a point or an exponent marker. */
  lemma MantissaHead(n: Numeral)
    requires ValidNumeral(n)
    ensures var a := n.whole + RenderTail(n); a != [] && a[0] != '+' && a[0] != '-'
  {
    var b := RenderTail(n);
    TailHead(n);
    if n.whole != [] {
      assert (n.whole + b)[0] == n.whole[0];
    } else {
      assert n.whole + b == b;
      assert n.point && b[0] == '.';
    }
  }

  /** The whole digits of a written-out numeral, then its tail, are read back. */
  lemma ParseMantissaRender(n: Numeral)
    requires ValidNumeral(n)
    ensures ParseMantissa(n.sign, n.whole + RenderTail(n)) == Some(n)
  {
    var b := RenderTail(n);
    TailHead(n);
    DigitPrefixOf(n.whole, b);
    assert (n.whole + b)[|n.whole|..] == b;
    ParseRenderTail(n);
  }

  /** A recognised exponent is well formed and writes back to the same text. */
  lemma RenderParseExponent(d: string)
    requires ParseExponent(d).Some?
    ensures ValidExponent(ParseExponent(d).value) && RenderExponent(ParseExponent(d).value) == d
  {
    if d != [] {
      var esign := SignPrefix(d[1..]);
      var rest := d[1..][|esign|..];
      assert d[1..] == esign + rest;
      assert d == [d[0]] + esign + rest;
      DigitPrefixSpec(rest);
      assert DigitPrefix(rest) == rest;
    }
  }

  lemma ParseEndRender(sign: string, whole: string, point: bool, frac: string, d: string)
    requires ParseEnd(sign, whole, point, frac, d).Some?
    ensures var n := ParseEnd(sign, whole, point, frac, d).value;
      n.sign == sign && n.whole == whole && n.point == point && n.frac == frac &&
      ValidExponent(n.exponent) && RenderExponent(n.exponent) == d
  {
    RenderParseExponent(d);
  }

  lemma RenderParseTail(sign: string, whole: string, b: string)
    requires ParseFraction(sign, whole, b).Some?
    ensures var n := ParseFraction(sign, whole, b).value;
      n.sign == sign && n.whole == whole && AllDigits(n.frac) && (!n.point ==> n.frac == []) &&
      |whole| + |n.frac| >= 1 && ValidExponent(n.exponent) && RenderTail(n) == b
  {
    if |b| > 0 && b[0] == '.' {
      RenderParsePointTail(sign, whole, b);
    } else {
      RenderParsePlainTail(sign, whole, b);
    }
  }

  /** A tail without a point is read as the exponent alone. */
  lemma RenderParsePlainTail(sign: string, whole: string, b: string)
    requires !(|b| > 0 && b[0] == '.') && ParseFraction(sign, whole, b).Some?
    ensures var n := ParseFraction(sign, whole, b).value;
      n.sign == sign && n.whole == whole && !n.point && n.frac == [] &&
      |whole| >= 1 && ValidExponent(n.exponent) && RenderTail(n) == b
  {
    assert ParseFraction(sign, whole, b) == ParseEnd(sign, whole, false, [], b);
    ParseEndRender(sign, whole, false, [], b);
    var n := ParseEnd(sign, whole, false, [], b).value;
    assert RenderTail(n) == [] + [] + RenderExponent(n.exponent);
  }

  lemma RenderParsePointTail(sign: string, whole: string, b: string)
    requires |b| > 0 && b[0] == '.' && ParseFraction(sign, whole, b).Some?
    ensures var n := ParseFraction(sign, whole, b).value;
      n.sign == sign && n.whole == whole && n.point && AllDigits(n.frac) &&
      |whole| + |n.frac| >= 1 && ValidExponent(n.exponent) && RenderTail(n) == b
  {
    PointTailParts(sign, whole, b);
    PointTailRender(sign, whole, b);
  }

  /** The parts read after a point are well formed. */
  lemma PointTailParts(sign: string, whole: string, b: string)
    requires |b| > 0 && b[0] == '.' && ParseFraction(sign, whole, b).Some?
    ensures var n := ParseFraction(sign, whole, b).value;
      n.sign == sign && n.whole == whole && n.point && AllDigits(n.frac) &&
      |whole| + |n.frac| >= 1 && ValidExponent(n.exponent)
  {
    var c := b[1..];
    var frac := DigitPrefix(c);
    DigitPrefixSpec(c);
    ParseEndRender(sign, whole, true, frac, c[|frac|..]);
  }

  /** The parts read after a point write back to the same tail. */
  lemma PointTailRender(sign: string, whole: string, b: string)
    requires |b| > 0 && b[0] == '.' && ParseFraction(sign, whole, b).Some?
    ensures RenderTail(ParseFraction(sign, whole, b).value) == b
  {
    var c := b[1..];
    var frac := DigitPrefix(c);
    var d := c[|frac|..];
    DigitPrefixSplit(c);
    var r := ParseEnd(sign, whole, true, frac, d);
    assert ParseFraction(sign, whole, b) == r;
    ParseEndRender(sign, whole, true, frac, d);
    PointThenFraction(b, frac, d, r.value);
  }

  /** A text is its leading digits followed by the rest. */
  lemma DigitPrefixSplit(c: string)
    ensures c == DigitPrefix(c) + c[|DigitPrefix(c)|..]
  {
    DigitPrefixSpec(c);
  }

  /** A point, the fraction digits and the exponent give back the tail text. */
  lemma PointThenFraction(b: string, frac: string, d: string, n: Numeral)
    requires |b| > 0 && b[0] == '.' && b[1..] == frac + d
    requires n.point && n.frac == frac && RenderExponent(n.exponent) == d
    ensures RenderTail(n) == b
  {
    assert b == ['.'] + b[1..];
  }

  lemma RenderParseMantissa(sign: string, a: string)
    requires ParseMantissa(sign, a).Some?
    ensures var n := ParseMantissa(sign, a).value;
      n.sign == sign && AllDigits(n.whole) && AllDigits(n.frac) && (!n.point ==> n.frac == []) &&
      |n.whole| + |n.frac| >= 1 && ValidExponent(n.exponent) && n.whole + RenderTail(n) == a
  {
    var whole := DigitPrefix(a);
    var b := a[|whole|..];
    DigitPrefixSpec(a);
    assert a == whole + b;
    RenderParseTail(sign, whole, b);
    WholeThenTail(a, whole, b, ParseFraction(sign, whole, b).value);
  }

  /** The whole digits followed by the tail give back the mantissa text. */
  lemma WholeThenTail(a: string, whole: string, b: string, n: Numeral)
    requires a == whole + b
    requires n.whole == whole && RenderTail(n) == b
    ensures n.whole + RenderTail(n) == a
  {
  }

  /** Whatever is recognised is a well-formed numeral that writes back to the same text. */
  lemma RenderParse(s: string)
    requires IsNumeral(s)
    ensures ValidNumeral(ParseNumeral(s).value)
    ensures RenderNumeral(ParseNumeral(s).value) == s
  {
    var sign := SignPrefix(s);
    var a := s[|sign|..];
    assert s == sign + a;
    RenderParseMantissa(sign, a);
    SignedMantissa(sign, a, ParseMantissa(sign, a).value);
  }

  /** A parsed mantissa behind a valid sign is a valid numeral that writes back
      to the sign and the mantissa text. */
  lemma SignedMantissa(sign: string, a: string, n: Numeral)
    requires ValidSign(sign) && n.sign == sign
    requires AllDigits(n.whole) && AllDigits(n.frac) && (!n.point ==> n.frac == [])
    requires |n.whole| + |n.frac| >= 1 && ValidExponent(n.exponent) && n.whole + RenderTail(n) == a
    ensures ValidNumeral(n) && RenderNumeral(n) == sign + a
  {
    assert n.sign + n.whole + RenderTail(n) == sign + (n.whole + RenderTail(n));
  }

  /** The recognised texts are exactly the renderings of well-formed numerals. */
  lemma NumeralCharacterised(s: string)
    ensures IsNumeral(s) <==> exists n :: ValidNumeral(n) && RenderNumeral(n) == s
  {
    if IsNumeral(s) {
      RenderParse(s);
    }
    if n :| ValidNumeral(n) && RenderNumeral(n) == s {
      ParseRender(n);
    }
  }

  // ------------------------------------------------------------ string order

  /** Lexicographic order on code points; a proper prefix comes first. */
  predicate StrLess(a: string, b: string)
    decreases |a|
  {
    |b| > 0 && (|a| == 0 || a[0] < b[0] || (a[0] == b[0] && StrLess(a[1..], b[1..])))
  }

  lemma {:induction false} StrLessIrreflexive(a: string)
    ensures !StrLess(a, a)
  {
    if |a| > 0 {
      StrLessIrreflexive(a[1..]);
    }
  }

  lemma {:induction false} StrLessTransitive(a: string, b: string, c: string)
    requires StrLess(a, b) && StrLess(b, c)
    ensures StrLess(a, c)
    decreases |a|
  {
    if |a| > 0 && a[0] == b[0] && b[0] == c[0] {
      StrLessTransitive(a[1..], b[1..], c[1..]);
    }
  }

  lemma {:induction false} StrLessTotal(a: string, b: string)
    requires a != b
    ensures StrLess(a, b) || StrLess(b, a)
    decreases |a|
  {
    if |a| > 0 && |b| > 0 && a[0] == b[0] {
      assert a == [a[0]] + a[1..] && b == [b[0]] + b[1..];
      StrLessTotal(a[1..], b[1..]);
    }
  }
}
