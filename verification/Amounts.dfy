/**
  Decimal amounts: the exact parser of LICN amounts and the three printers, over unsigned
  64-bit base units. A text that is well formed says an exact number of base units.
*/
module Amounts {
  import opened Arithmetic
  import opened Bytes
  import opened JsonText
  import Trimming

  const U64: nat := 0x1_0000_0000_0000_0000
  const SPORES_PER_LICN: nat := 1_000_000_000
  const DOT: Unit := 46
  const ZERO: Unit := 48

  predicate AllDigits(t: Text) {
    forall i :: 0 <= i < |t| ==> IsDigit(t[i])
  }

  function Pow10(n: nat): (p: nat)
    ensures p > 0
  {
    if n == 0 then 1 else 10 * Pow10(n - 1)
  }

  // ---------------------------------------------------------------------
  // What a decimal text says
  // ---------------------------------------------------------------------

  /** `text` is `whole`, or `whole` and `fraction` around a point, both of digits, not both
      empty, and the fraction no longer than `decimals`. */
  predicate Writes(text: Text, whole: Text, fraction: Text, decimals: nat) {
    && (text == whole + [DOT] + fraction || (text == whole && fraction == []))
    && AllDigits(whole) && AllDigits(fraction)
    && (whole != [] || fraction != []) && |fraction| <= decimals
  }

  /** The exact number of base units. */
  function Units(whole: Text, fraction: Text, decimals: nat): nat
    requires AllDigits(whole) && AllDigits(fraction) && |fraction| <= decimals
  {
    DigitValue(whole) * Pow10(decimals) + DigitValue(fraction) * Pow10(decimals - |fraction|)
  }

  /** Rust's `char::is_whitespace`. */
  predicate IsWhitespace(u: Unit) {
    9 <= u <= 13 || u in {32, 0x85, 0xA0, 0x1680, 0x2028, 0x2029, 0x202F, 0x205F, 0x3000} || 0x2000 <= u <= 0x200A
  }

  // ---------------------------------------------------------------------
  // The parser
  // ---------------------------------------------------------------------

  /** `str::split('.')`. */
  function Split(t: Text): (parts: seq<Text>)
    ensures |parts| >= 1
  {
    if t == [] then [[]]
    else if t[0] == DOT then [[]] + Split(t[1..])
    else var rest := Split(t[1..]); [[t[0]] + rest[0]] + rest[1..]
  }

  /** `str::parse::<u64>` on digits. */
  function ParseU64(t: Text): Option<nat>
    requires AllDigits(t)
  {
    if t != [] && DigitValue(t) < U64 then Some(DigitValue(t)) else None
  }

  function Zeros(n: nat): (t: Text)
    ensures |t| == n && AllDigits(t) && forall i :: 0 <= i < n ==> t[i] == ZERO
  {
    seq(n, _ => ZERO)
  }

  /** Reading a trimmed text; None where it is not well formed. */
  function Read(t: Text, decimals: nat): Option<nat> {
    var parts := Split(t);
    if |parts| > 2 then None
    else
      var whole, fraction := parts[0], if |parts| == 2 then parts[1] else [];
      if (whole == [] && fraction == []) || !AllDigits(whole) || !AllDigits(fraction) || |fraction| > decimals then None
      else Some(Units(whole, fraction, decimals))
  }

  function Fits(v: Option<nat>): Option<nat> {
    if v.Some? && v.value < U64 then v else None
  }

  /** `parse_licn_amount_to_spores`; None where it fails. */
  method ParseLicn(raw: Text) returns (r: Option<nat>)
    ensures r == Fits(Read(Trimming.Trim(IsWhitespace, raw), 9))
  {
    hide Units, Trimming.Trim, Split, DigitValue, Pow10, IsWhitespace;
    var trimmed := Trimming.Trim(IsWhitespace, raw);
    if trimmed == [] || trimmed[0] == 45 || trimmed[0] == 43 || 101 in trimmed || 69 in trimmed {
      NotPlain(trimmed, 9);
      return None;
    }
    var parts := Split(trimmed);
    if |parts| > 2 {
      return None;
    }
    var wholePart, fracPart := parts[0], if |parts| == 2 then parts[1] else [];
    if wholePart == [] && fracPart == [] {
      return None;
    }
    if !AllDigits(wholePart) || !AllDigits(fracPart) || |fracPart| > 9 {
      return None;
    }
    var whole := if wholePart == [] then Some(0) else ParseU64(wholePart);
    var fracPadded := fracPart;
    while |fracPadded| < 9
      invariant |fracPart| <= |fracPadded| <= 9
      invariant fracPadded == fracPart + Zeros(|fracPadded| - |fracPart|)
    {
      fracPadded := fracPadded + [ZERO];
    }
    var fractional := ParseU64(fracPadded);
    Checked(wholePart, fracPart);
    if whole.None? || fractional.None? || whole.value * SPORES_PER_LICN + fractional.value >= U64 {
      return None;
    }
    r := Some(whole.value * SPORES_PER_LICN + fractional.value);
  }

  // ---------------------------------------------------------------------
  // Digit strings
  // ---------------------------------------------------------------------

  lemma {:induction false} DigitsAppend(t: Text, u: Unit)
    requires AllDigits(t) && IsDigit(u)
    ensures AllDigits(t + [u]) && DigitValue(t + [u]) == 10 * DigitValue(t) + (u - 48)
  {
    assert (t + [u])[..|t|] == t;
  }

  /** Zeros at the end multiply by a power of ten. */
  lemma {:induction false} ZerosAfter(t: Text, k: nat)
    requires AllDigits(t)
    ensures AllDigits(t + Zeros(k)) && DigitValue(t + Zeros(k)) == DigitValue(t) * Pow10(k)
    decreases k
  {
    hide DigitValue;
    if k == 0 {
      assert t + Zeros(0) == t;
    } else {
      ZerosAfter(t, k - 1);
      assert t + Zeros(k) == t + Zeros(k - 1) + [ZERO];
      DigitsAppend(t + Zeros(k - 1), ZERO);
      TimesTen(DigitValue(t), Pow10(k - 1));
    }
  }

  lemma TimesTen(a: nat, p: nat)
    ensures 10 * (a * p) == a * (10 * p)
  {}

  /** Zeros in front change nothing. */
  lemma {:induction false} ZerosBefore(k: nat, t: Text)
    requires AllDigits(t)
    ensures AllDigits(Zeros(k) + t) && DigitValue(Zeros(k) + t) == DigitValue(t)
    decreases k + |t|
  {
    hide DigitValue;
    if t != [] {
      var front, u := t[..|t| - 1], t[|t| - 1];
      ZerosBefore(k, front);
      assert t == front + [u] && Zeros(k) + t == Zeros(k) + front + [u];
      DigitsAppend(front, u);
      DigitsAppend(Zeros(k) + front, u);
    } else if k > 0 {
      ZerosBefore(k - 1, []);
      assert Zeros(k - 1) + [] == Zeros(k - 1);
      assert Zeros(k) + [] == Zeros(k - 1) + [ZERO];
      DigitsAppend(Zeros(k - 1), ZERO);
      NoDigits();
    } else {
      assert Zeros(0) + t == t;
    }
  }

  lemma NoDigits()
    ensures DigitValue([]) == 0
  {}

  lemma {:induction false} ValueBound(t: Text)
    requires AllDigits(t)
    ensures DigitValue(t) < Pow10(|t|)
    decreases |t|
  {
    hide DigitValue;
    if t == [] {
      NoDigits();
    } else {
      var front, u := t[..|t| - 1], t[|t| - 1];
      ValueBound(front);
      assert t == front + [u];
      DigitsAppend(front, u);
    }
  }

  lemma {:induction false} DigitsLength(n: nat, width: nat)
    requires width > 0 && n < Pow10(width)
    ensures |Digits(n)| <= width
    decreases n
  {
    if n >= 10 {
      assert width > 1 by { assert Pow10(1) == 10 * Pow10(0) == 10; }
      DigitsLength(n / 10, width - 1);
    }
  }

  // ---------------------------------------------------------------------
  // The parser reads exactly what is written
  // ---------------------------------------------------------------------

  predicate NoDot(t: Text) {
    forall i :: 0 <= i < |t| ==> t[i] != DOT
  }

  lemma {:induction false} SplitWhole(t: Text)
    requires NoDot(t)
    ensures Split(t) == [t]
    decreases |t|
  {
    if t != [] {
      SplitWhole(t[1..]);
      assert t == [t[0]] + t[1..];
    }
  }

  lemma {:induction false} SplitAtDot(whole: Text, fraction: Text)
    requires NoDot(whole) && NoDot(fraction)
    ensures Split(whole + [DOT] + fraction) == [whole, fraction]
    decreases |whole|
  {
    var t := whole + [DOT] + fraction;
    if whole == [] {
      assert t[1..] == fraction;
      SplitWhole(fraction);
    } else {
      SplitAtDot(whole[1..], fraction);
      assert t[1..] == whole[1..] + [DOT] + fraction;
      assert whole == [whole[0]] + whole[1..];
    }
  }

  /** A split in one or two parts can be undone. */
  lemma {:induction false} SplitJoins(t: Text)
    ensures var parts := Split(t);
            && (|parts| == 1 ==> t == parts[0])
            && (|parts| == 2 ==> t == parts[0] + [DOT] + parts[1])
    decreases |t|
  {
    if t != [] {
      SplitJoins(t[1..]);
      assert t == [t[0]] + t[1..];
    }
  }

  lemma DigitsHaveNoDot(t: Text)
    requires AllDigits(t)
    ensures NoDot(t)
  {}

  /** Reading succeeds exactly on the well-formed decimals, with their exact value. */
  lemma ReadIff(t: Text, decimals: nat, v: nat)
    ensures Read(t, decimals) == Some(v)
       <==> exists whole: Text, fraction: Text ::
              Writes(t, whole, fraction, decimals) && Units(whole, fraction, decimals) == v
  {
    hide Units, Split;
    if Read(t, decimals) == Some(v) {
      SplitJoins(t);
      var parts := Split(t);
      var fraction := if |parts| == 2 then parts[1] else [];
      assert Writes(t, parts[0], fraction, decimals);
    }
    if whole: Text, fraction: Text :| Writes(t, whole, fraction, decimals) && Units(whole, fraction, decimals) == v {
      ReadWritten(t, whole, fraction, decimals);
    }
  }

  lemma ReadWritten(t: Text, whole: Text, fraction: Text, decimals: nat)
    requires Writes(t, whole, fraction, decimals)
    ensures Read(t, decimals) == Some(Units(whole, fraction, decimals))
  {
    hide Units, Split;
    DigitsHaveNoDot(whole);
    DigitsHaveNoDot(fraction);
    if t == whole {
      SplitWhole(whole);
      assert fraction == [];
    } else {
      SplitAtDot(whole, fraction);
    }
  }

  /** Signs and exponents are never part of a well-formed decimal. */
  lemma NotPlain(t: Text, decimals: nat)
    requires t == [] || t[0] == 45 || t[0] == 43 || 101 in t || 69 in t
    ensures Read(t, decimals) == None
  {
    hide Units, Split;
    if Read(t, decimals).Some? {
      ReadIff(t, decimals, Read(t, decimals).value);
      var whole, fraction :| Writes(t, whole, fraction, decimals);
      PlainUnits(t, whole, fraction, decimals);
    }
  }

  lemma PlainUnits(t: Text, whole: Text, fraction: Text, decimals: nat)
    requires Writes(t, whole, fraction, decimals)
    ensures t != [] && forall i :: 0 <= i < |t| ==> IsDigit(t[i]) || t[i] == DOT
  {}

  /** The checked arithmetic computes the exact value, and overflows only if that does. */
  lemma Checked(whole: Text, fraction: Text)
    requires AllDigits(whole) && AllDigits(fraction) && |fraction| <= 9
    ensures var padded := fraction + Zeros(9 - |fraction|);
            && AllDigits(padded) && padded != [] && DigitValue(padded) < U64
            && Units(whole, fraction, 9) == DigitValue(whole) * SPORES_PER_LICN + DigitValue(padded)
            && (whole == [] ==> DigitValue(whole) == 0)
  {
    hide DigitValue;
    var padded := fraction + Zeros(9 - |fraction|);
    ZerosAfter(fraction, 9 - |fraction|);
    ValueBound(padded);
    TenToTheNinth();
    NoDigits();
  }

  lemma TenToTheNinth()
    ensures Pow10(9) == SPORES_PER_LICN
  {
    assert Pow10(3) == 1000;
    assert Pow10(6) == 1_000_000;
    assert Pow10(9) == 1_000_000_000;
  }

  // ---------------------------------------------------------------------
  // The printers
  // ---------------------------------------------------------------------

  /** A number with leading zeros up to a width. */
  function Pad(n: nat, width: nat): (t: Text)
    ensures AllDigits(t) && |t| >= width
  {
    var t := Digits(n);
    if |t| < width then Zeros(width - |t|) + t else t
  }

  function TrimZeros(t: Text): (r: Text)
    ensures r <= t
    ensures r != [] ==> r[|r| - 1] != ZERO
  {
    if t != [] && t[|t| - 1] == ZERO then TrimZeros(t[..|t| - 1]) else t
  }

  /** A whole number and a fraction of so many decimals, as printed. */
  function Layout(whole: nat, fraction: nat, decimals: nat): Text {
    if fraction == 0 then Digits(whole) else Digits(whole) + [DOT] + TrimZeros(Pad(fraction, decimals))
  }

  function Quotient(v: nat, p: nat): nat
    requires p > 0
  {
    v / p
  }

  function Formatted(v: nat, decimals: nat): Text {
    Layout(Quotient(v, Pow10(decimals)), v % Pow10(decimals), decimals)
  }

  const U128: nat := 0x1_0000_0000_0000_0000_0000_0000_0000_0000

  /** Ten to the power fits 128 bits up to 38. */
  lemma PowerFitsIff(n: nat)
    ensures Pow10(n) < U128 <==> n <= 38
  {
    hide Pow10;
    TenToTheNinth();
    SmallPowers();
    TimesPowers(9, 9);
    TimesPowers(18, 18);
    TimesPowers(36, 2);
    TimesPowers(36, 3);
    if n <= 38 {
      PowMonotone(n, 38);
    } else {
      PowMonotone(39, n);
    }
  }

  lemma SmallPowers()
    ensures Pow10(2) == 100 && Pow10(3) == 1000
  {
    assert Pow10(1) == 10;
  }

  lemma {:induction false} TimesPowers(m: nat, n: nat)
    ensures Pow10(m + n) == Pow10(m) * Pow10(n)
    decreases n
  {
    if n > 0 {
      TimesPowers(m, n - 1);
      TimesTen(Pow10(m), Pow10(n - 1));
    }
  }

  lemma {:induction false} PowMonotone(m: nat, n: nat)
    requires m <= n
    ensures Pow10(m) <= Pow10(n)
    decreases n
  {
    if m < n {
      PowMonotone(m, n - 1);
    }
  }

  /** `format_token_amount`; None where ten to the number of decimals overflows 128 bits. */
  method FormatTokenAmount(amount: nat, decimals: nat) returns (text: Option<Text>)
    requires amount < U64 && decimals < 256
    ensures text == if decimals <= 38 then Some(Formatted(amount, decimals)) else None
  {
    hide Digits, Pow10, Pad;
    if decimals == 0 {
      PowZero();
      return Some(Digits(amount));
    }
    var scale := Pow10(decimals);
    PowerFitsIff(decimals);
    if scale >= U128 {
      return None;
    }
    var whole, fractional := amount / scale, amount % scale;
    if fractional == 0 {
      return Some(Digits(whole));
    }
    var fractionalText := Pad(fractional, decimals);
    while fractionalText != [] && fractionalText[|fractionalText| - 1] == ZERO
      invariant TrimZeros(fractionalText) == TrimZeros(Pad(fractional, decimals))
      decreases |fractionalText|
    {
      fractionalText := fractionalText[..|fractionalText| - 1];
    }
    text := Some(Digits(whole) + [DOT] + fractionalText);
  }

  lemma PowZero()
    ensures Pow10(0) == 1
  {}

  /** `format_licn`. */
  method FormatLicn(spores: nat) returns (text: Text)
    requires spores < U64
    ensures text == Formatted(spores, 9)
  {
    hide Digits, Pow10, Pad;
    TenToTheNinth();
    var whole, fractional := spores / SPORES_PER_LICN, spores % SPORES_PER_LICN;
    if fractional == 0 {
      return Digits(whole);
    }
    var frac := Pad(fractional, 9);
    while frac != [] && frac[|frac| - 1] == ZERO
      invariant TrimZeros(frac) == TrimZeros(Pad(fractional, 9))
      decreases |frac|
    {
      frac := frac[..|frac| - 1];
    }
    text := Digits(whole) + [DOT] + frac;
  }

  function TrimDots(t: Text): Text {
    if t != [] && t[|t| - 1] == DOT then TrimDots(t[..|t| - 1]) else t
  }

  /** `licn_string` of the staking model. */
  function LicnString(spores: nat): Text {
    TrimDots(TrimZeros(Digits(spores / SPORES_PER_LICN) + [DOT] + Pad(spores % SPORES_PER_LICN, 9)))
  }

  lemma {:induction false} TrimZerosAfterDot(front: Text, t: Text)
    requires AllDigits(t)
    ensures TrimZeros(front + [DOT] + t) == front + [DOT] + TrimZeros(t)
    decreases |t|
  {
    var s := front + [DOT] + t;
    if t == [] {
      assert s[|s| - 1] == DOT;
      assert s == front + [DOT] + TrimZeros(t);
    } else if t[|t| - 1] == ZERO {
      TrimZerosAfterDot(front, t[..|t| - 1]);
      assert s[..|s| - 1] == front + [DOT] + t[..|t| - 1];
    }
  }

  lemma {:induction false} TrimZerosKeeps(t: Text)
    ensures t == TrimZeros(t) + Zeros(|t| - |TrimZeros(t)|)
    decreases |t|
  {
    if t != [] && t[|t| - 1] == ZERO {
      TrimZerosKeeps(t[..|t| - 1]);
    }
  }

  /** The padded fraction, without its trailing zeros, still says the fraction. */
  lemma FractionSays(n: nat, decimals: nat)
    requires 0 < n < Pow10(decimals)
    ensures var f := TrimZeros(Pad(n, decimals));
            && AllDigits(f) && 0 < |f| <= decimals
            && DigitValue(f) * Pow10(decimals - |f|) == n
  {
    hide DigitValue, Digits;
    var p := Pad(n, decimals);
    DigitsLength(n, decimals);
    DigitsValue(n);
    ZerosBefore(decimals - |Digits(n)|, Digits(n));
    assert Zeros(0) + Digits(n) == Digits(n);
    assert DigitValue(p) == n && |p| == decimals;
    var f := TrimZeros(p);
    TrimZerosKeeps(p);
    ZerosAfter(f, |p| - |f|);
    NoDigits();
    assert f != [];
  }

  lemma LayoutSays(whole: nat, fraction: nat, decimals: nat)
    requires fraction < Pow10(decimals)
    ensures Read(Layout(whole, fraction, decimals), decimals) == Some(whole * Pow10(decimals) + fraction)
  {
    hide Digits, Pad, TrimZeros, Read, DigitValue, Pow10;
    DigitsValue(whole);
    var w, t := Digits(whole), Layout(whole, fraction, decimals);
    if fraction == 0 {
      NoDigits();
      ReadWritten(t, w, [], decimals);
    } else {
      FractionSays(fraction, decimals);
      ReadWritten(t, w, TrimZeros(Pad(fraction, decimals)), decimals);
    }
  }

  /** What is printed is well formed and says the amount it was printed from. */
  lemma FormattedSays(v: nat, decimals: nat)
    ensures Read(Formatted(v, decimals), decimals) == Some(v)
  {
    hide Layout, Read, Pow10;
    var p := Pow10(decimals);
    LayoutSays(v / p, v % p, decimals);
    DivisionSplits(v, p);
  }

  lemma DivisionSplits(v: nat, p: nat)
    requires p > 0
    ensures v == v / p * p + v % p
  {}

  lemma FormattedTrimmed(v: nat, decimals: nat)
    ensures Trimming.Trim(IsWhitespace, Formatted(v, decimals)) == Formatted(v, decimals)
  {
    hide Digits, Pad, Read;
    FormattedSays(v, decimals);
    var t := Formatted(v, decimals);
    ReadIff(t, decimals, v);
    var whole, fraction :| Writes(t, whole, fraction, decimals);
    PlainUnits(t, whole, fraction, decimals);
    Trimming.TrimTwice(IsWhitespace, t);
  }

  /** Parsing a printed amount gives it back, for every 64-bit amount. */
  lemma ParseInvertsFormat(spores: nat)
    requires spores < U64
    ensures Fits(Read(Trimming.Trim(IsWhitespace, Formatted(spores, 9)), 9)) == Some(spores)
  {
    hide Formatted, Read;
    FormattedTrimmed(spores, 9);
    FormattedSays(spores, 9);
  }

  /** The command line and the staking model print the same text. */
  lemma PrintersAgree(spores: nat)
    ensures LicnString(spores) == Formatted(spores, 9)
  {
    hide Digits, Pow10, Pad, TrimZeros;
    TenToTheNinth();
    var whole, fraction := spores / SPORES_PER_LICN, spores % SPORES_PER_LICN;
    var p := Pad(fraction, 9);
    TrimZerosAfterDot(Digits(whole), p);
    if fraction == 0 {
      AllZeros();
      assert Digits(whole) + [DOT] + [] == Digits(whole) + [DOT];
      DotTrimmed(Digits(whole));
    } else {
      FractionSays(fraction, 9);
      NoDotTrimmed(Digits(whole) + [DOT] + TrimZeros(p));
    }
  }

  lemma AllZeros()
    ensures TrimZeros(Pad(0, 9)) == []
  {
    assert Digits(0) == [ZERO];
    TrimZerosKeeps(Pad(0, 9));
  }

  lemma DotTrimmed(t: Text)
    requires t != [] && t[|t| - 1] != DOT
    ensures TrimDots(t + [DOT]) == t
  {
    assert (t + [DOT])[..|t|] == t;
  }

  lemma NoDotTrimmed(t: Text)
    requires t != [] && t[|t| - 1] != DOT
    ensures TrimDots(t) == t
  {}

  /** For each number of decimals, different amounts print differently. */
  lemma FormatInjective(a: nat, b: nat, decimals: nat)
    requires Formatted(a, decimals) == Formatted(b, decimals)
    ensures a == b
  {
    hide Formatted, Read;
    FormattedSays(a, decimals);
    FormattedSays(b, decimals);
  }

  /** `scale_whole_token_amount`; None where it fails. */
  function ScaleWhole(amount: nat, decimals: nat): Option<nat> {
    if Pow10(decimals) >= U64 || amount * Pow10(decimals) >= U64 then None else Some(amount * Pow10(decimals))
  }

  /** A scaled whole amount prints as that whole number. */
  lemma ScaledPrintsWhole(amount: nat, decimals: nat)
    requires ScaleWhole(amount, decimals).Some?
    ensures Formatted(ScaleWhole(amount, decimals).value, decimals) == Digits(amount)
  {
    hide Digits, Pow10, Pad, TrimZeros;
    DivUnique(amount * Pow10(decimals), Pow10(decimals), amount, 0);
  }
}
