/**
 Exact decimal quantities (apps/web/lib/basket-quantity.ts). Amounts are ASCII text;
 white space is the ASCII white space that `trim` removes.
 */
module BasketQuantity {
  import opened Wrappers

  const BASKET_QUANTITY_MIN := 1
  const BASKET_COUNT_QUANTITY_MAX := 999
  const BASKET_MEASURE_QUANTITY_MAX := 999999

  datatype InputUnit = Piece | Package | G | Ml | Kg | L

  datatype Quantity = Quantity(amount: nat, unit: InputUnit)

  /** A draft unit as stored: one of the canonical units, or the legacy "each". */
  datatype StoredUnit = LegacyEach | Stored(unit: InputUnit)

  datatype Draft = Draft(amount: string, inputUnit: InputUnit, legacyEach: bool)

  // ----- Digits

  predicate IsDigit(c: char) { '0' <= c <= '9' }

  ghost predicate AllDigits(s: string) { forall i | 0 <= i < |s| :: IsDigit(s[i]) }

  function DigitOf(n: nat): char
    requires n < 10
  {
    '0' + n as char
  }

  function ValueOf(c: char): int { c as int - '0' as int }

  /** The number a digit string denotes. */
  function Value(s: string): int {
    if s == "" then 0 else Value(s[..|s| - 1]) * 10 + ValueOf(s[|s| - 1])
  }

  /** The shortest decimal text of a number. */
  function Print(n: nat): string {
    if n < 10 then [DigitOf(n)] else Print(n / 10) + [DigitOf(n % 10)]
  }

  predicate HasOnlyDigits(s: string) {
    s == "" || (IsDigit(s[0]) && HasOnlyDigits(s[1..]))
  }

  lemma {:induction false} OnlyDigits(s: string)
    ensures HasOnlyDigits(s) <==> AllDigits(s)
  {
    if s != "" {
      OnlyDigits(s[1..]);
      assert forall i | 1 <= i < |s| :: s[i] == s[1..][i - 1];
      assert forall i | 0 <= i < |s[1..]| :: s[1..][i] == s[i + 1];
    }
  }

  /** No sign, no leading zero. */
  predicate IsWhole(s: string) {
    s == "0" || (s != "" && s[0] != '0' && HasOnlyDigits(s))
  }

  lemma {:induction false} PrintIsWhole(n: nat)
    ensures AllDigits(Print(n)) && Value(Print(n)) == n && IsWhole(Print(n)) && Print(n) != ""
    ensures n > 0 ==> Print(n)[0] != '0'
  {
    if n >= 10 {
      PrintIsWhole(n / 10);
      var front := Print(n / 10);
      assert Print(n)[..|front|] == front;
    } else {
      assert Print(n)[..0] == "";
    }
    OnlyDigits(Print(n));
  }

  lemma {:induction false} ValueConcat(a: string, b: string)
    ensures Value(a + b) == Value(a) * TenTo(|b|) + Value(b)
  {
    if b == "" {
      assert a + b == a;
    } else {
      var init := b[..|b| - 1];
      ValueConcat(a, init);
      assert (a + b)[..|a + b| - 1] == a + init;
      assert Value(a) * TenTo(|b|) == Value(a) * TenTo(|init|) * 10;
    }
  }

  function TenTo(n: nat): (r: nat)
    ensures r > 0
  {
    if n == 0 then 1 else TenTo(n - 1) * 10
  }

  lemma {:induction false} ValueIsNatural(s: string)
    requires AllDigits(s)
    ensures 0 <= Value(s) < TenTo(|s|)
  {
    if s != "" { ValueIsNatural(s[..|s| - 1]); }
  }

  // ----- Parsing

  predicate IsSpace(c: char) {
    c == ' ' || c == '\t' || c == '\n' || c == '\U{000B}' || c == '\U{000C}' || c == '\r'
  }

  function TrimStart(s: string): string {
    if s != "" && IsSpace(s[0]) then TrimStart(s[1..]) else s
  }

  function TrimEnd(s: string): string {
    if s != "" && IsSpace(s[|s| - 1]) then TrimEnd(s[..|s| - 1]) else s
  }

  function Trim(s: string): string { TrimEnd(TrimStart(s)) }

  predicate IsSeparator(c: char) { c == '.' || c == ',' }

  /** The position of the first decimal separator, or the length of the text. */
  function SeparatorAt(s: string): (i: nat)
    ensures i <= |s|
    ensures forall k | 0 <= k < i :: !IsSeparator(s[k])
    ensures i < |s| ==> IsSeparator(s[i])
  {
    if s == "" || IsSeparator(s[0]) then 0 else 1 + SeparatorAt(s[1..])
  }

  function WholePart(s: string): string { s[..SeparatorAt(s)] }

  function FractionPart(s: string): string {
    if SeparatorAt(s) == |s| then "" else s[SeparatorAt(s) + 1..]
  }

  /** A whole number, optionally with a separator and one to three digits. */
  predicate IsDecimal(s: string) {
    && IsWhole(WholePart(s))
    && (SeparatorAt(s) < |s| ==> 1 <= |FractionPart(s)| <= 3 && HasOnlyDigits(FractionPart(s)))
  }

  function PadEnd(s: string, n: nat): string
    decreases n - |s|
  {
    if |s| >= n then s else PadEnd(s + "0", n)
  }

  function ParseScaled(raw: string, scale: nat): Option<int> {
    var amount := Trim(raw);
    if !(if scale == 1 then IsWhole(amount) else IsDecimal(amount)) then None
    else
      var canonical := Value(WholePart(amount)) * scale
        + Value(PadEnd(FractionPart(amount), if scale == 1 then 0 else 3));
      if canonical < BASKET_QUANTITY_MIN then None else Some(canonical)
  }

  predicate IsScaled(u: InputUnit) { u.Kg? || u.L? }

  function CanonicalUnit(u: InputUnit): InputUnit {
    if u.Kg? then G else if u.L? then Ml else u
  }

  function Maximum(u: InputUnit): nat {
    if u.G? || u.Ml? then BASKET_MEASURE_QUANTITY_MAX else BASKET_COUNT_QUANTITY_MAX
  }

  function Parse(raw: string, u: InputUnit): Option<Quantity> {
    var amount := ParseScaled(raw, if IsScaled(u) then 1000 else 1);
    if amount.None? || amount.value > Maximum(CanonicalUnit(u)) then None
    else Some(Quantity(amount.value, CanonicalUnit(u)))
  }

  // ----- Printing

  function Pad3(n: nat): string
    requires n < 1000
  {
    [DigitOf(n / 100), DigitOf(n / 10 % 10), DigitOf(n % 10)]
  }

  function StripZeros(s: string): string {
    if s != "" && s[|s| - 1] == '0' then StripZeros(s[..|s| - 1]) else s
  }

  function ScaledDraft(q: nat): string {
    var fraction := StripZeros(Pad3(q % 1000));
    if fraction == "" then Print(q / 1000) else Print(q / 1000) + "," + fraction
  }

  function AmountFor(q: nat, u: InputUnit): string {
    if IsScaled(u) then ScaledDraft(q) else Print(q)
  }

  datatype Dimension = Mass | Volume | Count

  function DimensionOf(u: InputUnit): Dimension {
    match u
    case G => Mass
    case Kg => Mass
    case Ml => Volume
    case L => Volume
    case _ => Count
  }

  function AfterUnitChange(amount: string, current: InputUnit, next: InputUnit): string {
    var parsed := Parse(amount, current);
    if parsed.None? || DimensionOf(current) != DimensionOf(next) then amount
    else if DimensionOf(current).Count? then amount
    else AmountFor(parsed.value.amount, next)
  }

  function DraftOf(q: nat, u: StoredUnit): Draft {
    match u
    case LegacyEach => Draft(Print(q), Package, true)
    case Stored(unit) =>
      if unit.G? && q >= 1000 then Draft(ScaledDraft(q), Kg, false)
      else if unit.Ml? && q >= 1000 then Draft(ScaledDraft(q), L, false)
      else Draft(Print(q), unit, false)
  }

  // ----- Printed text parses back

  lemma {:induction false} NoSeparator(s: string)
    requires AllDigits(s)
    ensures SeparatorAt(s) == |s| && WholePart(s) == s && FractionPart(s) == ""
  {
    if s != "" {
      assert IsDigit(s[0]);
      NoSeparator(s[1..]);
    }
  }

  lemma {:induction false} SeparatorBehind(w: string, sep: char, f: string)
    requires AllDigits(w) && IsSeparator(sep)
    ensures SeparatorAt(w + [sep] + f) == |w|
    ensures WholePart(w + [sep] + f) == w && FractionPart(w + [sep] + f) == f
  {
    var s := w + [sep] + f;
    if w == "" {
      assert s[0] == sep;
    } else {
      assert s[0] == w[0] && IsDigit(w[0]);
      assert s[1..] == w[1..] + [sep] + f;
      SeparatorBehind(w[1..], sep, f);
    }
  }

  lemma NothingToTrim(s: string)
    requires s != "" && IsDigit(s[0]) && IsDigit(s[|s| - 1])
    ensures Trim(s) == s
  {
  }

  lemma {:induction false} PadEndStrip(s: string, n: nat)
    requires |s| <= n
    ensures |PadEnd(s, n)| == n && PadEnd(s, n)[..|s|] == s && forall i | |s| <= i < n :: PadEnd(s, n)[i] == '0'
    decreases n - |s|
  {
    if |s| < n {
      PadEndStrip(s + "0", n);
      var p := PadEnd(s, n);
      assert p[..|s| + 1] == s + "0";
      assert p[..|s|] == p[..|s| + 1][..|s|];
      assert p[|s|] == p[..|s| + 1][|s|];
    }
  }

  lemma {:induction false} StripLeavesZeros(s: string)
    ensures |StripZeros(s)| <= |s| && s[..|StripZeros(s)|] == StripZeros(s)
    ensures forall i | |StripZeros(s)| <= i < |s| :: s[i] == '0'
  {
    if s != "" && s[|s| - 1] == '0' { StripLeavesZeros(s[..|s| - 1]); }
  }

  /** Stripped zeros come back. */
  lemma StripThenPad(s: string)
    ensures PadEnd(StripZeros(s), |s|) == s
  {
    StripLeavesZeros(s);
    PadEndStrip(StripZeros(s), |s|);
    var p, k := PadEnd(StripZeros(s), |s|), |StripZeros(s)|;
    assert p == p[..k] + p[k..] && s == s[..k] + s[k..];
  }

  lemma Pad3IsRight(n: nat)
    requires n < 1000
    ensures AllDigits(Pad3(n)) && Value(Pad3(n)) == n
  {
    var s := Pad3(n);
    assert s[..2][..1] == s[..1] && s[..1][..0] == "";
    assert Value(s[..1]) == n / 100;
    assert Value(s[..2]) == n / 100 * 10 + n / 10 % 10;
  }

  /** Text of a whole number, read at scale one or a thousand. */
  lemma ParsesWhole(q: nat, scale: nat)
    requires scale == 1 || scale == 1000
    ensures ParseScaled(Print(q), scale) == if q * scale >= 1 then Some(q * scale) else None
  {
    var s := Print(q);
    PrintIsWhole(q);
    NothingToTrim(s);
    NoSeparator(s);
    assert Value(PadEnd("", 0)) == 0;
    PadEndStrip("", 3);
    assert PadEnd("", 3) == "000";
    ZeroText();
  }

  lemma ZeroText()
    ensures Value("000") == 0
  {
    assert "000"[..2] == "00" && "00"[..1] == "0" && "0"[..0] == "";
  }

  lemma ParsesFraction(w: nat, fraction: string, f: nat)
    requires f < 1000 && fraction == StripZeros(Pad3(f)) && fraction != ""
    ensures ParseScaled(Print(w) + "," + fraction, 1000) == if w * 1000 + f >= 1 then Some(w * 1000 + f) else None
  {
    var whole := Print(w);
    var s := whole + "," + fraction;
    PrintIsWhole(w);
    Pad3IsRight(f);
    StripLeavesZeros(Pad3(f));
    StripThenPad(Pad3(f));
    assert AllDigits(fraction) by { assert forall i | 0 <= i < |fraction| :: fraction[i] == Pad3(f)[i]; }
    OnlyDigits(fraction);
    SeparatorBehind(whole, ',', fraction);
    assert s == whole + [','] + fraction;
    assert s[0] == whole[0] && s[|s| - 1] == fraction[|fraction| - 1];
    NothingToTrim(s);
  }

  lemma ParsesScaledDraft(q: nat)
    requires q >= 1
    ensures ParseScaled(ScaledDraft(q), 1000) == Some(q)
  {
    var fraction := StripZeros(Pad3(q % 1000));
    assert q == q / 1000 * 1000 + q % 1000;
    if fraction == "" {
      ParsesWhole(q / 1000, 1000);
      StripLeavesZeros(Pad3(q % 1000));
      assert Pad3(q % 1000) == "000";
      Pad3IsRight(q % 1000);
      ZeroText();
    } else {
      ParsesFraction(q / 1000, fraction, q % 1000);
    }
  }

  /** Printing a valid quantity for any of its input units and parsing it gives the quantity back. */
  lemma PrintThenParse(q: nat, u: InputUnit)
    requires 1 <= q <= Maximum(CanonicalUnit(u))
    ensures Parse(AmountFor(q, u), u) == Some(Quantity(q, CanonicalUnit(u)))
  {
    if IsScaled(u) { ParsesScaledDraft(q); } else { ParsesWhole(q, 1); }
  }

  /** Drafts parse back exactly; the legacy unit becomes the package it stands for. */
  lemma DraftParsesBack(q: nat, u: StoredUnit)
    requires u.Stored? ==> !IsScaled(u.unit)
    requires 1 <= q <= (if u.LegacyEach? then BASKET_COUNT_QUANTITY_MAX else Maximum(u.unit))
    ensures var draft := DraftOf(q, u);
            Parse(draft.amount, draft.inputUnit) == Some(Quantity(q, if u.LegacyEach? then Package else u.unit))
  {
    PrintThenParse(q, DraftOf(q, u).inputUnit);
  }

  /** Whatever the user typed, switching between units of one dimension keeps the amount it stands for. */
  lemma UnitChangeKeepsTheAmount(amount: string, current: InputUnit, next: InputUnit)
    requires Parse(amount, current).Some? && DimensionOf(current) == DimensionOf(next)
    ensures var changed := Parse(AfterUnitChange(amount, current, next), next);
            changed.Some? && changed.value.amount == Parse(amount, current).value.amount
            && (DimensionOf(current).Count? || changed == Parse(amount, current))
  {
    if !DimensionOf(current).Count? {
      PrintThenParse(Parse(amount, current).value.amount, next);
    }
  }

  // ----- Parsing is exact

  lemma AppendZero(f: string)
    ensures Value(f + "0") == Value(f) * 10
  {
    assert (f + "0")[..|f|] == f;
  }

  lemma TenTimes(a: int, b: int)
    ensures a * 10 * b == a * (b * 10)
  {
  }

  lemma {:induction false} PadEndScales(f: string, n: nat)
    requires |f| <= n
    ensures Value(PadEnd(f, n)) == Value(f) * TenTo(n - |f|)
    decreases n - |f|
  {
    if |f| < n {
      calc {
        Value(PadEnd(f, n));
        Value(PadEnd(f + "0", n));
        { PadEndScales(f + "0", n); }
        Value(f + "0") * TenTo(n - |f| - 1);
        { AppendZero(f); }
        Value(f) * 10 * TenTo(n - |f| - 1);
        { TenTimes(Value(f), TenTo(n - |f| - 1)); }
        Value(f) * TenTo(n - |f|);
      }
    }
  }

  lemma TenToThree()
    ensures TenTo(0) == 1 && TenTo(1) == 10 && TenTo(2) == 100 && TenTo(3) == 1000
  {
  }

  /**
   No rounding: an accepted kilogram or litre amount, written with any number of
   decimals, denotes exactly a thousandth of the canonical quantity.
   */
  lemma ParseIsExact(raw: string)
    requires ParseScaled(raw, 1000).Some?
    ensures var amount := Trim(raw);
            var decimals := |FractionPart(amount)|;
            decimals <= 3 && ParseScaled(raw, 1000).value * TenTo(decimals)
              == Value(WholePart(amount) + FractionPart(amount)) * 1000
  {
    var amount := Trim(raw);
    var w, f := WholePart(amount), FractionPart(amount);
    ValueConcat(w, f);
    PadEndScales(f, 3);
    TenToThree();
    Rescale(Value(w), Value(f), TenTo(|f|), TenTo(3 - |f|));
  }

  lemma Rescale(w: int, f: int, scale: int, rest: int)
    requires (scale, rest) in {(1, 1000), (10, 100), (100, 10), (1000, 1)}
    ensures (w * 1000 + f * rest) * scale == (w * scale + f) * 1000
  {
  }

  // ----- What is accepted

  ghost predicate IsDigits(s: string) { forall i | 0 <= i < |s| :: '0' <= s[i] <= '9' }

  /** Zero, or digits that do not begin with zero. */
  ghost predicate IsWholeText(s: string) { s != "" && IsDigits(s) && (s == "0" || s[0] != '0') }

  /** A whole number, or one with a point or comma and one to three digits after it. */
  ghost predicate IsAmountText(s: string) {
    || IsWholeText(s)
    || exists k :: 0 < k < |s| && (s[k] == '.' || s[k] == ',') && IsWholeText(s[..k])
                   && 1 <= |s| - k - 1 <= 3 && IsDigits(s[k + 1..])
  }

  lemma WholeTexts(s: string)
    ensures IsWhole(s) <==> IsWholeText(s)
  {
    OnlyDigits(s);
  }

  lemma AmountTexts(s: string)
    ensures IsDecimal(s) <==> IsAmountText(s)
  {
    var k := SeparatorAt(s);
    WholeTexts(WholePart(s));
    WholeTexts(s);
    OnlyDigits(FractionPart(s));
    if k == |s| {
      assert s[..k] == s;
    } else if IsDecimal(s) {
      assert 0 < k < |s| && s[k + 1..] == FractionPart(s);
    }
    if IsAmountText(s) && !IsWholeText(s) {
      var m :| 0 < m < |s| && (s[m] == '.' || s[m] == ',') && IsWholeText(s[..m])
               && 1 <= |s| - m - 1 <= 3 && IsDigits(s[m + 1..]);
      assert forall i | 0 <= i < m :: s[i] == s[..m][i];
      assert k == m;
    }
  }

  /** The text without the white space around it. */
  ghost predicate IsTrimmed(s: string, t: string) {
    && (t != "" ==> !IsSpace(t[0]) && !IsSpace(t[|t| - 1]))
    && exists i, j :: 0 <= i <= j <= |s| && s[i..j] == t
         && (forall k | 0 <= k < i || j <= k < |s| :: IsSpace(s[k]))
  }

  lemma {:induction false} TrimStartIs(s: string) returns (i: nat)
    ensures i <= |s| && TrimStart(s) == s[i..] && (forall k | 0 <= k < i :: IsSpace(s[k]))
    ensures i < |s| ==> !IsSpace(s[i])
  {
    if s != "" && IsSpace(s[0]) {
      var j := TrimStartIs(s[1..]);
      i := j + 1;
      assert s[1..][j..] == s[i..];
      assert forall k | 1 <= k < i :: s[k] == s[1..][k - 1];
    } else {
      i := 0;
    }
  }

  lemma {:induction false} TrimEndIs(s: string) returns (j: nat)
    ensures j <= |s| && TrimEnd(s) == s[..j] && (forall k | j <= k < |s| :: IsSpace(s[k]))
    ensures j > 0 ==> !IsSpace(s[j - 1])
  {
    if s != "" && IsSpace(s[|s| - 1]) {
      j := TrimEndIs(s[..|s| - 1]);
      assert s[..|s| - 1][..j] == s[..j];
    } else {
      j := |s|;
      assert s[..j] == s;
    }
  }

  lemma TrimIs(s: string)
    ensures IsTrimmed(s, Trim(s))
  {
    var i := TrimStartIs(s);
    var rest := s[i..];
    var j := TrimEndIs(rest);
    assert s[i..i + j] == rest[..j] == Trim(s);
    assert forall k | i + j <= k < |s| :: s[k] == rest[k - i];
    if j > 0 { assert rest[0] == s[i] && Trim(s)[0] == rest[0] && Trim(s)[j - 1] == rest[j - 1]; }
  }

  /**
   A quantity is parsed exactly from a whole number, for kilograms and litres also with up to three decimals, that
   lies between one and the maximum of its unit: 999 pieces or packages, 999999 grams or millilitres.
   */
  lemma ParsesExactly(raw: string, u: InputUnit)
    ensures var text, scaled := Trim(raw), u.Kg? || u.L?;
            var amount := ParseScaled(raw, if scaled then 1000 else 1);
            && (amount.Some? <==>
                  && (if scaled then IsAmountText(text) else IsWholeText(text))
                  && Value(WholePart(text)) * (if scaled then 1000 else 1)
                     + Value(PadEnd(FractionPart(text), if scaled then 3 else 0)) >= 1)
            && (Parse(raw, u).Some? <==>
                  amount.Some? && amount.value <= if u.G? || u.Kg? || u.Ml? || u.L? then 999999 else 999)
            && (Parse(raw, u).Some? ==>
                  Parse(raw, u).value == Quantity(amount.value, if u.Kg? then G else if u.L? then Ml else u))
  {
    WholeTexts(Trim(raw));
    AmountTexts(Trim(raw));
    hide IsWholeText, IsAmountText, IsDecimal, IsWhole, Trim, PadEnd, Value, WholePart, FractionPart;
  }

  /** A kilogram and more is shown in kilograms, a litre and more in litres; only the legacy unit is marked. */
  lemma DraftShows(q: nat, u: StoredUnit)
    ensures var d := DraftOf(q, u);
            && (d.legacyEach <==> u.LegacyEach?)
            && d.inputUnit == (match u
                               case LegacyEach => Package
                               case Stored(G) => if q >= 1000 then Kg else G
                               case Stored(Ml) => if q >= 1000 then L else Ml
                               case Stored(unit) => unit)
  {
  }
}
