/** The score cell of the appraisals table: the percentage text is parsed with
    JavaScript's `parseInt` after removing its "%", and the number picks one of
    five badge colours (src/Screens/dashboard/appraisals/columns.tsx). */
module AppraisalGrades {
  import Seqs
  import Text

  /** The JavaScript numbers `parseInt` can return: NaN or an integer. */
  datatype JsNumber = NaN | Num(n: int)

  /** The value of a character as a digit in bases up to 36, or 36 when it is none. */
  function DigitValue(c: char): (v: nat)
    ensures v <= 36
  {
    if '0' <= c <= '9' then c as int - '0' as int
    else if 'a' <= c <= 'z' then c as int - 'a' as int + 10
    else if 'A' <= c <= 'Z' then c as int - 'A' as int + 10
    else 36
  }

  /** `c` is a digit in base `radix`. */
  predicate IsDigit(c: char, radix: nat)
  {
    DigitValue(c) < radix
  }

  /** The longest prefix of `s` made of digits in base `radix`. */
  function DigitPrefix(s: string, radix: nat): (p: string)
    ensures p <= s
    ensures forall i :: 0 <= i < |p| ==> IsDigit(p[i], radix)
    ensures |p| < |s| ==> !IsDigit(s[|p|], radix)
  {
    if s != [] && IsDigit(s[0], radix) then [s[0]] + DigitPrefix(s[1..], radix) else []
  }

  /** The number the digits `ds` denote in base `radix`, most significant first. */
  function DigitsValue(ds: string, radix: nat): int
  {
    if ds == [] then 0
    else DigitsValue(ds[..|ds| - 1], radix) * radix + DigitValue(ds[|ds| - 1])
  }

  /** The number a run of digits gives: NaN when the run is empty. */
  function ParseDigits(v: string, radix: nat): (r: JsNumber)
    ensures r.NaN? <==> DigitPrefix(v, radix) == []
  {
    var ds := DigitPrefix(v, radix);
    if ds == [] then NaN else Num(DigitsValue(ds, radix))
  }

  /** The input starts with "0x" or "0X". */
  predicate HasHexPrefix(u: string)
  {
    |u| >= 2 && u[0] == '0' && (u[1] == 'x' || u[1] == 'X')
  }

  /** An unsigned numeral: base 16 after "0x" or "0X", base 10 otherwise. */
  function ParseUnsigned(u: string): JsNumber
  {
    if HasHexPrefix(u) then ParseDigits(u[2..], 16) else ParseDigits(u, 10)
  }

  /** Unary minus on a JavaScript number (NaN stays NaN). */
  function Negate(x: JsNumber): JsNumber
  {
    match x
    case NaN => NaN
    case Num(n) => Num(-n)
  }

  /** One optional sign, then an unsigned numeral. */
  function ParseSigned(t: string): JsNumber
  {
    if t != [] && t[0] == '-' then Negate(ParseUnsigned(t[1..]))
    else if t != [] && t[0] == '+' then ParseUnsigned(t[1..])
    else ParseUnsigned(t)
  }

  /** `parseInt(s)` without a radix: skip leading white space, read one optional sign,
      switch to base 16 after "0x" or "0X", then read the longest run of digits;
      NaN when that run is empty. */
  function ParseInt(s: string): JsNumber
  {
    ParseSigned(Text.TrimStart(s))
  }

  /** `s.replace(c, "")` with a one-character string pattern: only the first occurrence goes. */
  function RemoveFirst(s: string, c: char): (r: string)
    ensures c !in s ==> r == s
    ensures c in s ==> r == s[..Seqs.FirstIndex(s, c)] + s[Seqs.FirstIndex(s, c) + 1..]
  {
    if c in s then
      var k := Seqs.FirstIndex(s, c);
      s[..k] + s[k + 1..]
    else s
  }

  /** `parseInt(value.replace("%", ""))`. */
  function Score(percentage: string): JsNumber
  {
    ParseInt(RemoveFirst(percentage, '%'))
  }

  /** The decimal digit for `d`. */
  function DigitChar(d: nat): (c: char)
    requires d < 10
    ensures DigitValue(c) == d
  {
    ('0' as int + d) as char
  }

  /** The decimal numeral of `n`, without leading zeros. */
  function ShowNat(n: nat): (s: string)
    ensures |s| >= 1 && (s[0] == '0' ==> n == 0 && |s| == 1)
    ensures forall i :: 0 <= i < |s| ==> '0' <= s[i] <= '9'
  {
    if n < 10 then [DigitChar(n)] else ShowNat(n / 10) + [DigitChar(n % 10)]
  }

  /** The decimal numeral of `n` denotes `n`. */
  lemma {:induction false} ShowNatValue(n: nat)
    ensures DigitsValue(ShowNat(n), 10) == n
  {
    if n >= 10 {
      ShowNatValue(n / 10);
      var s := ShowNat(n);
      assert s[..|s| - 1] == ShowNat(n / 10);
    }
  }

  /** Trimming a string that starts with no white space after some white space leaves it. */
  lemma {:induction false} TrimStartAfterSpace(ws: string, s: string)
    requires forall i :: 0 <= i < |ws| ==> Text.IsJsSpace(ws[i])
    requires s != [] && !Text.IsJsSpace(s[0])
    ensures Text.TrimStart(ws + s) == s
  {
    if ws != [] {
      assert (ws + s)[1..] == ws[1..] + s;
      TrimStartAfterSpace(ws[1..], s);
    } else {
      assert ws + s == s;
    }
  }

  /** The digit prefix of a run of digits followed by a non-digit is that run. */
  lemma {:induction false} DigitPrefixOfDigits(d: string, rest: string, radix: nat)
    requires forall i :: 0 <= i < |d| ==> IsDigit(d[i], radix)
    requires rest == [] || !IsDigit(rest[0], radix)
    ensures DigitPrefix(d + rest, radix) == d
  {
    if d == [] {
      assert d + rest == rest;
    } else {
      assert (d + rest)[1..] == d[1..] + rest;
      DigitPrefixOfDigits(d[1..], rest, radix);
    }
  }

  /** The digit prefix of a numeral followed by a non-digit is the numeral. */
  lemma DigitPrefixOfNumeral(n: nat, rest: string, radix: nat)
    requires radix >= 10
    requires rest == [] || !IsDigit(rest[0], radix)
    ensures DigitPrefix(ShowNat(n) + rest, radix) == ShowNat(n)
  {
    DigitPrefixOfDigits(ShowNat(n), rest, radix);
  }

  /** A decimal numeral followed by a non-digit reads as its number, unless it is "0"
      followed by "x" or "X". */
  lemma ParseUnsignedNumeral(n: nat, rest: string)
    requires rest == [] || !IsDigit(rest[0], 10)
    requires n == 0 && rest != [] ==> rest[0] != 'x' && rest[0] != 'X'
    ensures ParseUnsigned(ShowNat(n) + rest) == Num(n)
  {
    var num := ShowNat(n) + rest;
    if n == 0 && rest != [] {
      assert num[1] == rest[0];
    }
    assert !HasHexPrefix(num);
    DigitPrefixOfNumeral(n, rest, 10);
    ShowNatValue(n);
  }

  /** `parseInt` skips the white space in front of its input. */
  lemma ParseIntSkipsSpace(ws: string, t: string)
    requires forall i :: 0 <= i < |ws| ==> Text.IsJsSpace(ws[i])
    requires t != [] && !Text.IsJsSpace(t[0])
    ensures ParseInt(ws + t) == ParseSigned(t)
  {
    TrimStartAfterSpace(ws, t);
  }

  /** `parseInt` reads a decimal numeral after any white space, and stops at the first
      non-digit, unless the numeral is "0" followed by "x" or "X". */
  lemma ParseIntNumeral(ws: string, n: nat, rest: string)
    requires forall i :: 0 <= i < |ws| ==> Text.IsJsSpace(ws[i])
    requires rest == [] || !IsDigit(rest[0], 10)
    requires n == 0 && rest != [] ==> rest[0] != 'x' && rest[0] != 'X'
    ensures ParseInt(ws + (ShowNat(n) + rest)) == Num(n)
  {
    var t := ShowNat(n) + rest;
    assert t[0] == ShowNat(n)[0];
    ParseUnsignedNumeral(n, rest);
    ParseIntAfterSpace(ws, t, Num(n));
  }

  /** After white space, a string starting with a digit reads as its unsigned value. */
  lemma ParseIntAfterSpace(ws: string, t: string, v: JsNumber)
    requires forall i :: 0 <= i < |ws| ==> Text.IsJsSpace(ws[i])
    requires t != [] && '0' <= t[0] <= '9' && ParseUnsigned(t) == v
    ensures ParseInt(ws + t) == v
  {
    DigitStartIsUnsigned(t);
    ParseIntSkipsSpace(ws, t);
  }

  /** A string starting with a decimal digit carries no sign and no leading white space. */
  lemma DigitStartIsUnsigned(t: string)
    requires t != [] && '0' <= t[0] <= '9'
    ensures ParseSigned(t) == ParseUnsigned(t) && !Text.IsJsSpace(t[0])
  {
  }

  /** A minus sign in front of a decimal numeral negates it. */
  lemma ParseIntNegativeNumeral(ws: string, n: nat, rest: string)
    requires forall i :: 0 <= i < |ws| ==> Text.IsJsSpace(ws[i])
    requires rest == [] || !IsDigit(rest[0], 10)
    requires n == 0 && rest != [] ==> rest[0] != 'x' && rest[0] != 'X'
    ensures ParseInt(ws + "-" + ShowNat(n) + rest) == Num(-(n as int))
  {
    var t := "-" + (ShowNat(n) + rest);
    assert ws + "-" + ShowNat(n) + rest == ws + t;
    ParseIntSkipsSpace(ws, t);
    assert t[1..] == ShowNat(n) + rest;
    ParseUnsignedNumeral(n, rest);
  }

  /** A "0x" prefix switches `parseInt` to base 16. */
  lemma ParseIntHex()
    ensures ParseInt("0x1F") == Num(31)
    ensures ParseInt("0x") == NaN
  {
    assert Text.TrimStart("0x1F") == "0x1F";
    assert "0x1F"[2..] == "1F";
    assert DigitPrefix("1F", 16) == "1F" by {
      assert "1F"[1..] == "F";
      assert DigitPrefix("F", 16) == "F";
    }
    assert "1F"[..1] == "1" && "1"[..0] == "";
    assert DigitsValue("1F", 16) == 31;
  }

  /** White space alone reads as NaN. */
  lemma {:induction false} ParseIntBlankIsNaN(ws: string)
    requires forall i :: 0 <= i < |ws| ==> Text.IsJsSpace(ws[i])
    ensures ParseInt(ws) == NaN
  {
    if ws != [] {
      assert Text.TrimStart(ws) == Text.TrimStart(ws[1..]);
      ParseIntBlankIsNaN(ws[1..]);
    }
  }

  /** Text that starts with neither white space, a sign nor a digit reads as NaN. */
  lemma ParseIntNonNumeralIsNaN(t: string)
    requires t != [] && !Text.IsJsSpace(t[0]) && t[0] != '-' && t[0] != '+' && !IsDigit(t[0], 10)
    ensures ParseInt(t) == NaN
  {
    assert Text.TrimStart(t) == t;
    assert !HasHexPrefix(t);
    assert DigitPrefix(t, 10) == [];
  }

  /** A sign with nothing after it reads as NaN. */
  lemma ParseIntBareSignIsNaN(sign: char)
    requires sign == '-' || sign == '+'
    ensures ParseInt([sign]) == NaN
  {
    assert ParseUnsigned([]) == NaN by {
      assert DigitPrefix([], 10) == [];
    }
    assert ParseSigned([sign]) == NaN by {
      assert [sign][1..] == [];
    }
    assert !Text.IsJsSpace(sign);
    assert Text.TrimStart([sign]) == [sign];
  }

  /** No digits, or a bare sign, read as NaN. */
  lemma ParseIntNoDigitsIsNaN()
    ensures ParseInt("abc") == NaN
    ensures ParseInt("-") == NaN
  {
    ParseIntNonNumeralIsNaN("abc");
    ParseIntBareSignIsNaN('-');
  }

  /** Removing the first "%" of a text whose only "%" is its last character drops it. */
  lemma RemoveFirstTrailing(p: string, c: char)
    requires c !in p
    ensures RemoveFirst(p + [c], c) == p
  {
    var s := p + [c];
    assert forall i :: 0 <= i < |p| ==> s[i] != c by {
      forall i | 0 <= i < |p| ensures s[i] != c {
        assert s[i] == p[i];
      }
    }
    assert Seqs.FirstIndex(s, c) == |p|;
    assert s[..|p|] == p;
  }

  /** A score written as a numeral followed by "%" reads as that number. */
  lemma ScoreOfPercentage(n: nat)
    ensures Score(ShowNat(n) + "%") == Num(n)
  {
    assert '%' !in ShowNat(n);
    RemoveFirstTrailing(ShowNat(n), '%');
    ParseIntNumeral("", n, "");
    assert "" + (ShowNat(n) + "") == ShowNat(n);
  }

  /** "85%" scores 85. */
  lemma EightyFivePercent()
    ensures Score("85%") == Num(85)
  {
    assert DigitChar(8) == '8' && DigitChar(5) == '5';
    assert ShowNat(85) == ShowNat(8) + [DigitChar(5)];
    assert ShowNat(85) + "%" == "85%";
    ScoreOfPercentage(85);
  }

  /** The five grade bands. */
  datatype Grade = A | B | C | D | F

  /** The order of the bands, F lowest. */
  function Rank(g: Grade): nat
  {
    match g
    case A => 4
    case B => 3
    case C => 2
    case D => 1
    case F => 0
  }

  /** The band of a score by interval: A from 70, B 60 to 69, C 50 to 59, D 45 to 49,
      F below 45 and for NaN. */
  function GradeOf(score: JsNumber): Grade
  {
    match score
    case NaN => F
    case Num(n) =>
      if 70 <= n then A
      else if 60 <= n < 70 then B
      else if 50 <= n < 60 then C
      else if 45 <= n < 50 then D
      else F
  }

  /** The badge colour classes of the bands. */
  function ColorClass(g: Grade): string
  {
    match g
    case A => "bg-green-500 text-white"
    case B => "bg-blue-500 text-white"
    case C => "bg-yellow-500 text-black"
    case D => "bg-orange-400 text-black"
    case F => "bg-red-600 text-white"
  }

  /** JavaScript `score >= k`: false whenever the score is NaN. */
  predicate AtLeast(score: JsNumber, k: int)
  {
    score.Num? && score.n >= k
  }

  /** `getGradeBadgeColor`: the if-return chain on the score. */
  function GradeBadgeColor(score: JsNumber): string
  {
    if AtLeast(score, 70) then "bg-green-500 text-white"
    else if AtLeast(score, 60) then "bg-blue-500 text-white"
    else if AtLeast(score, 50) then "bg-yellow-500 text-black"
    else if AtLeast(score, 45) then "bg-orange-400 text-black"
    else "bg-red-600 text-white"
  }

  /** The chain gives the colour of the score's band, and the five colours are distinct,
      so every score gets exactly one of the five classes. */
  lemma BadgeColorOfBand(score: JsNumber)
    ensures GradeBadgeColor(score) == ColorClass(GradeOf(score))
    ensures forall g :: ColorClass(g) == GradeBadgeColor(score) <==> g == GradeOf(score)
  {
  }

  /** NaN fails every comparison, so an unreadable score is red. */
  lemma NaNIsRed()
    ensures GradeBadgeColor(NaN) == "bg-red-600 text-white"
    ensures Score("abc%") == NaN
  {
    RemoveFirstTrailing("abc", '%');
    assert "abc" + ['%'] == "abc%";
    ParseIntNoDigitsIsNaN();
  }

  /** A higher score never gets a lower band. */
  lemma GradeMonotone(m: int, n: int)
    requires m <= n
    ensures Rank(GradeOf(Num(m))) <= Rank(GradeOf(Num(n)))
  {
  }
}
