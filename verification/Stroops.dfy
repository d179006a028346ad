/** internal/module/explore/repository/event_preview.go: printing an amount of stroops in XLM. */
module Stroops {
  import opened Prelude
  import opened Decimal
  import opened Text

  const STROOPS_PER_XLM: int := 10_000_000
  const MINUS: char := '\U{2212}'
  const UNIT: string := " XLM"

  /** strings.TrimRight(s, "0"). */
  function TrimZeros(s: string): (t: string)
    ensures t <= s
    ensures t == "" || t[|t| - 1] != '0'
  {
    if s != "" && s[|s| - 1] == '0' then TrimZeros(s[..|s| - 1]) else s
  }

  function PadTo7(s: string): string
    decreases 7 - |s|
  {
    if |s| < 7 then PadTo7("0" + s) else s
  }

  /** The digits printed after the point; none for a whole amount. */
  function FractionText(n: int): string {
    var frac := n % STROOPS_PER_XLM;
    if frac == 0 then "" else TrimZeros(PadTo7(NatString(frac)))
  }

  function Dotted(fraction: string): string {
    if fraction == "" then "" else "." + fraction
  }

  /** The amount text after the sign. */
  function Magnitude(n: int): string {
    IntString(n / STROOPS_PER_XLM) + Dotted(FractionText(n)) + UNIT
  }

  /** What one leading '-' is stripped from. */
  function Unsigned(text: string): string {
    if text != "" && text[0] == '-' then text[1..] else text
  }

  /** The whole printed text, as a function of the raw one. */
  function Formatted(raw: string): string {
    var text := TrimSpace(raw);
    var sign := if text != "" && text[0] == '-' then [MINUS] else "";
    match ParseInt(Unsigned(text))
    case None => Unsigned(text)
    case Some(n) => sign + Magnitude(n)
  }

  method FormatStroopsAmount(raw: string) returns (text: string)
    ensures text == Formatted(raw)
  {
    var rest := TrimSpace(raw);
    if rest == "" {
      return "";
    }
    var sign := "";
    if rest[0] == '-' {
      sign := [MINUS];
      rest := rest[1..];
    }
    var n := ParseInt(rest);
    if n.None? {
      return rest;
    }
    text := PrintMagnitude(n.value);
    text := sign + text;
  }

  method PrintMagnitude(n: int) returns (text: string)
    ensures text == Magnitude(n)
  {
    var whole := n / STROOPS_PER_XLM;
    var frac := n % STROOPS_PER_XLM;
    if frac == 0 {
      text := IntString(whole) + UNIT;
      assert IntString(whole) + "" == IntString(whole);
      return;
    }
    var fracText := IntString(frac);
    while |fracText| < 7
      invariant PadTo7(fracText) == PadTo7(NatString(frac))
    {
      fracText := "0" + fracText;
    }
    fracText := TrimZeros(fracText);
    FractionFacts(frac);
    text := IntString(whole) + ("." + fracText) + UNIT;
  }

  // ----- Reading a printed amount back, independently of how it was printed

  datatype Parts = Parts(negative: bool, whole: string, fraction: string)

  function FirstDot(s: string): (i: nat)
    ensures i <= |s| && (i < |s| ==> s[i] == '.')
    ensures forall j :: 0 <= j < i ==> s[j] != '.'
  {
    if s == "" || s[0] == '.' then 0 else 1 + FirstDot(s[1..])
  }

  predicate IsNumber(whole: string, fraction: string) {
    whole != "" && AllDigits(whole) && AllDigits(fraction) && |fraction| <= 7
  }

  /** An unsigned number text as whole part and fraction. */
  function ReadNumber(number: string): Option<(string, string)> {
    var dot := FirstDot(number);
    var whole := number[..dot];
    var fraction := if dot < |number| then number[dot + 1..] else "";
    if IsNumber(whole, fraction) && (dot < |number| ==> fraction != "") then Some((whole, fraction)) else None
  }

  /** Sign, whole part and fraction of a printed amount; None when the text is not one. */
  function ReadParts(text: string): Option<Parts> {
    var negative := text != "" && text[0] == '\U{2212}';
    var rest := if negative then text[1..] else text;
    if |rest| < 4 || rest[|rest| - 4..] != " XLM" then None else
    match ReadNumber(rest[..|rest| - 4])
    case None => None
    case Some((whole, fraction)) => Some(Parts(negative, whole, fraction))
  }

  /** A fraction scaled to seven places. */
  function RightPad7(s: string): string
    decreases 7 - |s|
  {
    if |s| < 7 then RightPad7(s + "0") else s
  }

  lemma {:induction false} RightPadDigits(s: string)
    requires AllDigits(s)
    ensures AllDigits(RightPad7(s))
    decreases 7 - |s|
  {
    if |s| < 7 {
      RightPadDigits(s + "0");
    }
  }

  function StroopsOf(p: Parts): int
    requires AllDigits(p.whole) && AllDigits(p.fraction) && |p.fraction| <= 7
  {
    RightPadDigits(p.fraction);
    var n: int := NatValue(p.whole) * 10_000_000 + NatValue(RightPad7(p.fraction));
    if p.negative then -n else n
  }

  lemma {:induction false} PadTo7Facts(s: string)
    requires AllDigits(s) && |s| <= 7
    ensures var p := PadTo7(s); |p| == 7 && AllDigits(p) && NatValue(p) == NatValue(s)
    decreases 7 - |s|
  {
    if |s| < 7 {
      LeadingZeros("0", s);
      PadTo7Facts("0" + s);
    }
  }

  /** Trimming zeros on the right is undone by padding there. */
  lemma {:induction false} TrimZerosFacts(s: string)
    requires AllDigits(s) && |s| <= 7
    ensures AllDigits(TrimZeros(s)) && RightPad7(TrimZeros(s)) == RightPad7(s)
  {
    if s != "" && s[|s| - 1] == '0' {
      TrimZerosFacts(s[..|s| - 1]);
      assert s == s[..|s| - 1] + "0";
    }
  }

  /** The fraction printed for frac stroops: one to seven digits, no trailing zero, the same amount. */
  lemma FractionFacts(frac: nat)
    requires 0 < frac < STROOPS_PER_XLM
    ensures var t := TrimZeros(PadTo7(NatString(frac)));
            AllDigits(t) && 1 <= |t| <= 7 && t[|t| - 1] != '0'
            && AllDigits(RightPad7(t)) && NatValue(RightPad7(t)) == frac
  {
    SevenDigits(frac);
    PadTo7Facts(NatString(frac));
    TrimZerosFacts(PadTo7(NatString(frac)));
    if TrimZeros(PadTo7(NatString(frac))) == "" {
      ZerosAreZero(PadTo7(NatString(frac)));
    }
  }

  lemma SevenDigits(n: nat)
    requires n < STROOPS_PER_XLM
    ensures |NatString(n)| <= 7
  {
    assert Pow10(7) == STROOPS_PER_XLM;
    NatStringLength(n, 7);
  }

  lemma {:induction false} ZerosAreZero(s: string)
    requires AllDigits(s) && TrimZeros(s) == ""
    ensures NatValue(s) == 0
  {
    if s != "" {
      ZerosAreZero(s[..|s| - 1]);
    }
  }

  lemma NoDotInDigits(s: string)
    requires AllDigits(s)
    ensures '.' !in s
  {}

  /** The first dot is behind the whole part. */
  lemma DotIs(whole: string, rest: string)
    requires '.' !in whole && (rest == "" || rest[0] == '.')
    ensures FirstDot(whole + rest) == |whole|
  {
    var s := whole + rest;
    assert forall j :: 0 <= j < |whole| ==> s[j] == whole[j];
    assert rest != "" ==> s[|whole|] == '.';
  }

  lemma ReadNumberOf(whole: string, fraction: string)
    requires IsNumber(whole, fraction)
    ensures ReadNumber(whole + Dotted(fraction)) == Some((whole, fraction))
  {
    var number := whole + Dotted(fraction);
    NoDotInDigits(whole);
    DotIs(whole, Dotted(fraction));
    assert number[..|whole|] == whole;
    assert fraction != "" ==> number[|whole| + 1..] == fraction;
  }

  lemma ReadsUnsigned(whole: string, fraction: string)
    requires IsNumber(whole, fraction)
    ensures ReadParts(whole + Dotted(fraction) + UNIT) == Some(Parts(false, whole, fraction))
    ensures ReadParts([MINUS] + (whole + Dotted(fraction) + UNIT)) == Some(Parts(true, whole, fraction))
  {
    var number := whole + Dotted(fraction);
    var text := number + UNIT;
    ReadNumberOf(whole, fraction);
    assert text[0] == whole[0] && IsDigit(whole[0]);
    ReadsWithUnit(number, whole, fraction, text, false);
    assert ([MINUS] + text)[1..] == text;
    ReadsWithUnit(number, whole, fraction, [MINUS] + text, true);
  }

  lemma ReadsWithUnit(number: string, whole: string, fraction: string, text: string, negative: bool)
    requires ReadNumber(number) == Some((whole, fraction)) && text != ""
    requires (text[0] == MINUS) == negative && (if negative then text[1..] else text) == number + UNIT
    ensures ReadParts(text) == Some(Parts(negative, whole, fraction))
  {
    var unsigned := number + UNIT;
    assert unsigned[|unsigned| - 4..] == UNIT && unsigned[..|unsigned| - 4] == number;
  }

  lemma FractionTextFacts(n: int)
    ensures var t := FractionText(n);
            && AllDigits(t) && ProperFraction(t) && (t == "" <==> n % STROOPS_PER_XLM == 0)
            && AllDigits(RightPad7(t)) && NatValue(RightPad7(t)) == n % STROOPS_PER_XLM
  {
    if n % STROOPS_PER_XLM != 0 {
      FractionFacts(n % STROOPS_PER_XLM);
    } else {
      PaddedZeros("");
    }
  }

  lemma Recombine(n: int)
    ensures n / STROOPS_PER_XLM * STROOPS_PER_XLM + n % STROOPS_PER_XLM == n
    ensures -n % STROOPS_PER_XLM == 0 <==> n % STROOPS_PER_XLM == 0
  {}

  /** The parts printed for a non-negative amount denote it. */
  lemma PartsOf(n: int, whole: string, fraction: string)
    requires n >= 0 && AllDigits(whole) && whole != "" && NatValue(whole) == n / STROOPS_PER_XLM
    requires fraction == FractionText(n)
    ensures ReadsAs(Parts(false, whole, fraction), n) && ReadsAs(Parts(true, whole, fraction), -n)
  {
    FractionTextFacts(n);
    Recombine(n);
  }

  lemma {:induction false} PaddedZeros(s: string)
    requires forall i :: 0 <= i < |s| ==> s[i] == '0'
    ensures AllDigits(RightPad7(s)) && NatValue(RightPad7(s)) == 0
    decreases 7 - |s|
  {
    if |s| < 7 {
      PaddedZeros(s + "0");
    } else {
      LeadingZeros(s, "");
      assert s + "" == s;
    }
  }

  ghost predicate ProperFraction(fraction: string) {
    |fraction| <= 7 && (fraction == "" || fraction[|fraction| - 1] != '0')
  }

  /** The text reads as exactly this amount, its fraction absent or of one to seven digits without a zero at the end. */
  ghost predicate PrintsExactly(text: string, amount: int) {
    var parts := ReadParts(text);
    && parts.Some?
    && ReadsAs(parts.value, amount)
  }

  ghost predicate ReadsAs(p: Parts, amount: int) {
    && IsNumber(p.whole, p.fraction)
    && StroopsOf(p) == amount
    && ProperFraction(p.fraction)
    && (p.fraction == "" <==> amount % 10_000_000 == 0)
  }

  lemma MagnitudeReads(n: int)
    requires n >= 0
    ensures PrintsExactly(Magnitude(n), n) && PrintsExactly([MINUS] + Magnitude(n), -n)
  {
    var whole, fraction := IntString(n / STROOPS_PER_XLM), FractionText(n);
    PartsOf(n, whole, fraction);
    ReadsUnsigned(whole, fraction);
  }

  /** Printing is exact for every integer literal, of any size. */
  lemma FormatIsExact(raw: string, amount: int)
    requires ParseInt(TrimSpace(raw)) == Some(amount)
    ensures PrintsExactly(Formatted(raw), amount)
  {
    FormattedLiteral(raw, amount);
    MagnitudeReads(if amount < 0 then -amount else amount);
  }

  lemma FormattedLiteral(raw: string, amount: int)
    requires ParseInt(TrimSpace(raw)) == Some(amount)
    ensures var m := Magnitude(if amount < 0 then -amount else amount);
            (Formatted(raw) == m && amount >= 0) || (Formatted(raw) == [MINUS] + m && amount <= 0)
  {
    var text := TrimSpace(raw);
    UnsignedLiteral(text, amount);
    var m := Magnitude(if amount < 0 then -amount else amount);
    assert "" + m == m;
  }

  lemma UnsignedLiteral(text: string, amount: int)
    requires ParseInt(text) == Some(amount)
    ensures ParseInt(Unsigned(text)) == Some(if amount < 0 then -amount else amount)
    ensures amount != 0 ==> (text[0] == '-' <==> amount < 0)
  {
    if text[0] == '-' {
      assert IsDigit(text[1]);
    }
  }

  /** Different amounts print differently. */
  lemma FormatIsInjective(raw1: string, raw2: string, amount1: int, amount2: int)
    requires ParseInt(TrimSpace(raw1)) == Some(amount1) && ParseInt(TrimSpace(raw2)) == Some(amount2)
    requires Formatted(raw1) == Formatted(raw2)
    ensures amount1 == amount2
  {
    FormatIsExact(raw1, amount1);
    FormatIsExact(raw2, amount2);
  }

  /** Any other text: without a number after one '-', that text itself comes out; with one, an amount
      comes out exactly when the number is not negative, that is, when no second minus sign is left. */
  lemma FormatOfOtherText(raw: string)
    ensures var body := Unsigned(TrimSpace(raw));
            match ParseInt(body)
            case None => Formatted(raw) == body
            case Some(n) =>
              if n >= 0 then PrintsExactly(Formatted(raw), if TrimSpace(raw)[0] == '-' then -n else n) else ReadParts(Formatted(raw)).None?
  {
    var text := TrimSpace(raw);
    match ParseInt(Unsigned(text))
    case None =>
    case Some(n) =>
      assert "" + Magnitude(n) == Magnitude(n);
      assert Formatted(raw) == if text[0] == '-' then [MINUS] + Magnitude(n) else Magnitude(n);
      if n >= 0 {
        MagnitudeReads(n);
      } else {
        NegativeIsUnreadable(n);
      }
  }

  lemma NegativeIsUnreadable(n: int)
    requires n < 0
    ensures ReadParts(Magnitude(n)) == None && ReadParts([MINUS] + Magnitude(n)) == None
  {
    var m := Magnitude(n);
    assert IntString(n / STROOPS_PER_XLM)[0] == '-';
    assert m[0] == '-' && !IsDigit('-');
    assert ([MINUS] + m)[1..] == m;
    var number := m[..|m| - 4];
    assert number != "" && number[0] == '-';
    assert number[..FirstDot(number)][0] == '-';
  }

  /** "--5" is such a text: it is printed, as no reader accepts it. */
  lemma DoubleMinus()
    ensures ReadParts(Formatted("--5")) == None
  {
    assert TrimLeft("--5") == "--5" && TrimRight("--5") == "--5";
    assert Unsigned("--5") == "-5" && "-5"[1..] == "5" && "5"[..0] == "";
    assert ParseInt("-5") == Some(-5);
    FormatOfOtherText("--5");
  }
}
