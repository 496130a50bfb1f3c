/**
  Base58 as `bs58encode` writes it: one '1' per leading zero byte, then the digits of the
  big-endian value. The reference decoder follows sections 3 and 4 of
  draft-msporny-base58-03.
*/
module Base58 {
  import opened Bytes
  import Arithmetic
  import opened JsonText

  // ---------------------------------------------------------------------
  // Numerals in any base
  // ---------------------------------------------------------------------

  predicate Digits(s: seq<nat>, base: nat) {
    forall i :: 0 <= i < |s| ==> s[i] < base
  }

  /** One more digit at the low end. */
  function Push(q: nat, base: nat, d: nat): nat {
    q * base + d
  }

  /** The value of a numeral, most significant digit first. */
  function FromBase(s: seq<nat>, base: nat): nat {
    if s == [] then 0 else Push(FromBase(s[..|s| - 1], base), base, s[|s| - 1])
  }

  /** The numeral of a value, without leading zeros. */
  function ToBase(v: nat, base: nat): (s: seq<nat>)
    requires base >= 2
    ensures Digits(s, base)
    ensures s != [] ==> s[0] != 0
  {
    if v == 0 then [] else ToBase(v / base, base) + [v % base]
  }

  function LeadingZeros(s: seq<nat>): (n: nat)
    ensures n <= |s|
    ensures forall i :: 0 <= i < n ==> s[i] == 0
    ensures n < |s| ==> s[n] != 0
  {
    if s == [] || s[0] != 0 then 0 else 1 + LeadingZeros(s[1..])
  }

  function Zeros(n: nat): (s: seq<nat>)
    ensures |s| == n && forall i :: 0 <= i < n ==> s[i] == 0
  {
    seq(n, _ => 0)
  }

  /** The same string of digits in another base, keeping its leading zeros. */
  function Convert(s: seq<nat>, base: nat, target: nat): (t: seq<nat>)
    requires target >= 2
    ensures Digits(t, target)
  {
    Zeros(LeadingZeros(s)) + ToBase(FromBase(s, base), target)
  }

  lemma PushDivides(q: nat, base: nat, d: nat)
    requires d < base
    ensures Push(q, base, d) / base == q && Push(q, base, d) % base == d
    ensures q > 0 || d > 0 ==> Push(q, base, d) > 0
  {
    Arithmetic.DivUnique(q * base + d, base, q, d);
    if q > 0 {
      Arithmetic.MulMonotone(base, 1, q);
    }
  }

  lemma DividePushes(v: nat, base: nat)
    requires base > 0
    ensures Push(v / base, base, v % base) == v
  {}

  lemma ToPush(q: nat, base: nat, d: nat)
    requires base >= 2 && d < base && (q > 0 || d > 0)
    ensures Push(q, base, d) > 0 && ToBase(Push(q, base, d), base) == ToBase(q, base) + [d]
  {
    hide Push;
    PushDivides(q, base, d);
  }

  lemma FromLast(s: seq<nat>, d: nat, base: nat)
    ensures FromBase(s + [d], base) == Push(FromBase(s, base), base, d)
  {
    hide Push;
    assert (s + [d])[..|s|] == s;
  }

  lemma {:induction false} FromTo(v: nat, base: nat)
    requires base >= 2
    ensures FromBase(ToBase(v, base), base) == v
    decreases v
  {
    hide Push, FromBase;
    if v == 0 {
      FromNone([], base);
    } else {
      FromTo(v / base, base);
      DividePushes(v, base);
      FromLast(ToBase(v / base, base), v % base, base);
    }
  }

  lemma {:induction false} ToFrom(s: seq<nat>, base: nat)
    requires base >= 2 && Digits(s, base) && (s != [] ==> s[0] != 0)
    ensures ToBase(FromBase(s, base), base) == s
    ensures s != [] ==> FromBase(s, base) > 0
    decreases |s|
  {
    hide Push, FromBase, ToBase;
    if s == [] {
      FromNone(s, base);
      assert s[..0] == s;
      ToNone(base);
    } else {
      var front, d := s[..|s| - 1], s[|s| - 1];
      ToFrom(front, base);
      assert s == front + [d];
      FromLast(front, d, base);
      ToPush(FromBase(front, base), base, d);
    }
  }

  lemma ToNone(base: nat)
    requires base >= 2
    ensures ToBase(0, base) == []
  {}

  lemma FromNone(s: seq<nat>, base: nat)
    ensures FromBase(s[..0], base) == 0
  {}

  lemma {:induction false} FromZeros(n: nat, s: seq<nat>, base: nat)
    ensures FromBase(Zeros(n) + s, base) == FromBase(s, base)
    decreases n + |s|
  {
    var t := Zeros(n) + s;
    if s != [] {
      FromZeros(n, s[..|s| - 1], base);
      assert t[..|t| - 1] == Zeros(n) + s[..|s| - 1];
    } else if n > 0 {
      FromZeros(n - 1, [], base);
      assert t[..|t| - 1] == Zeros(n - 1) + [];
    }
  }

  lemma {:induction false} CountZeros(n: nat, s: seq<nat>)
    requires s != [] ==> s[0] != 0
    ensures LeadingZeros(Zeros(n) + s) == n
    decreases n
  {
    if n > 0 {
      CountZeros(n - 1, s);
      assert (Zeros(n) + s)[1..] == Zeros(n - 1) + s;
    } else {
      assert Zeros(0) + s == s;
    }
  }

  /** Converting to another base and back gives the digits one started from. */
  lemma ConvertBack(s: seq<nat>, base: nat, target: nat)
    requires base >= 2 && target >= 2 && Digits(s, base)
    ensures Convert(Convert(s, base, target), target, base) == s
  {
    var n := LeadingZeros(s);
    var rest := s[n..];
    assert s == Zeros(n) + rest;
    FromZeros(n, rest, base);
    var v := FromBase(rest, base);
    ToFrom(rest, base);
    CountZeros(n, ToBase(v, target));
    FromZeros(n, ToBase(v, target), target);
    FromTo(v, target);
  }

  // ---------------------------------------------------------------------
  // The alphabet
  // ---------------------------------------------------------------------

  const ONE: Unit := 49

  /** The characters 1-9, A-H, J-N, P-Z, a-k, m-z. */
  function Symbol(d: nat): Unit
    requires d < 58
  {
    if d < 9 then 49 + d else if d < 17 then 65 + (d - 9) else if d < 22 then 74 + (d - 17)
    else if d < 33 then 80 + (d - 22) else if d < 44 then 97 + (d - 33) else 109 + (d - 44)
  }

  predicate InAlphabet(u: Unit) {
    49 <= u <= 57 || 65 <= u <= 72 || 74 <= u <= 78 || 80 <= u <= 90 || 97 <= u <= 107 || 109 <= u <= 122
  }

  function DigitOf(u: Unit): (d: nat)
    requires InAlphabet(u)
    ensures d < 58 && Symbol(d) == u
  {
    if u <= 57 then u - 49 else if u <= 72 then u - 65 + 9 else if u <= 78 then u - 74 + 17
    else if u <= 90 then u - 80 + 22 else if u <= 107 then u - 97 + 33 else u - 109 + 44
  }

  function Symbols(s: seq<nat>): (t: Text)
    requires Digits(s, 58)
    ensures |t| == |s| && forall i :: 0 <= i < |s| ==> t[i] == Symbol(s[i])
  {
    seq(|s|, i requires 0 <= i < |s| => Symbol(s[i]))
  }

  predicate Valid58(t: Text) {
    forall i :: 0 <= i < |t| ==> InAlphabet(t[i])
  }

  function Numerals(t: Text): (s: seq<nat>)
    requires Valid58(t)
    ensures Digits(s, 58) && |s| == |t| && forall i :: 0 <= i < |t| ==> s[i] == DigitOf(t[i])
  {
    seq(|t|, i requires 0 <= i < |t| => DigitOf(t[i]))
  }

  function AsNats(bs: seq<byte>): (s: seq<nat>)
    ensures Digits(s, 256) && |s| == |bs| && forall i :: 0 <= i < |bs| ==> s[i] == bs[i]
  {
    seq(|bs|, i requires 0 <= i < |bs| => bs[i])
  }

  function AsBytes(s: seq<nat>): (bs: seq<byte>)
    requires Digits(s, 256)
    ensures |bs| == |s| && forall i :: 0 <= i < |s| ==> bs[i] == s[i]
  {
    seq(|s|, i requires 0 <= i < |s| => assert s[i] < 256; s[i])
  }

  // ---------------------------------------------------------------------
  // Encoding and decoding
  // ---------------------------------------------------------------------

  function Encoded(bs: seq<byte>): Text {
    Symbols(Convert(AsNats(bs), 256, 58))
  }

  /** The reference decoder; None on a character outside the alphabet. */
  function Decode(t: Text): Option<seq<byte>> {
    if Valid58(t) then Some(AsBytes(Convert(Numerals(t), 58, 256))) else None
  }

  /** `bs58encode`. */
  method Encode(bs: seq<byte>) returns (encoded: Text)
    ensures encoded == Encoded(bs)
  {
    hide Symbol, FromBase, ToBase, Symbols;
    var leadingZeros := 0;
    ghost var s := AsNats(bs);
    while leadingZeros < |bs| && bs[leadingZeros] == 0
      invariant leadingZeros <= LeadingZeros(s)
    {
      leadingZeros := leadingZeros + 1;
    }

    var value: nat := 0;
    var i := 0;
    FromNone(s, 256);
    while i < |bs|
      invariant i <= |bs| && value == FromBase(s[..i], 256)
    {
      FromNext(s, i, 256);
      value := value * 256 + bs[i];
      i := i + 1;
    }
    assert s[..i] == s;

    encoded := [];
    ghost var v, digits: seq<nat> := value, [];
    assert encoded == Symbols(digits);
    assert ToBase(v, 58) + [] == ToBase(v, 58);
    while value > 0
      invariant Digits(digits, 58) && encoded == Symbols(digits)
      invariant ToBase(value, 58) + digits == ToBase(v, 58)
    {
      DigitMoves(value, digits);
      encoded := [Symbol(value % 58)] + encoded;
      digits := [value % 58] + digits;
      value := value / 58;
    }
    Finish(leadingZeros, v, digits);
    encoded := seq(leadingZeros, _ => ONE) + encoded;
  }

  lemma FromNext(s: seq<nat>, i: nat, base: nat)
    requires i < |s|
    ensures FromBase(s[..i + 1], base) == FromBase(s[..i], base) * base + s[i]
  {
    assert s[..i + 1][..i] == s[..i];
  }

  /** Moving one digit from the value to the text keeps the numeral being written. */
  lemma DigitMoves(value: nat, digits: seq<nat>)
    requires value > 0 && Digits(digits, 58)
    ensures ToBase(value / 58, 58) + ([value % 58] + digits) == ToBase(value, 58) + digits
    ensures Symbols([value % 58] + digits) == [Symbol(value % 58)] + Symbols(digits)
  {
    hide Symbol;
  }

  lemma Finish(zeros: nat, v: nat, digits: seq<nat>)
    requires Digits(digits, 58) && ToBase(0, 58) + digits == ToBase(v, 58)
    ensures seq(zeros, _ => ONE) + Symbols(digits) == Symbols(Zeros(zeros) + ToBase(v, 58))
  {
    assert [] + digits == digits;
  }

  lemma DecodeInvertsEncode(bs: seq<byte>)
    ensures Decode(Encoded(bs)) == Some(bs)
  {
    hide Convert;
    var d := Convert(AsNats(bs), 256, 58);
    SymbolsInverse(d);
    ConvertBack(AsNats(bs), 256, 58);
    assert AsBytes(AsNats(bs)) == bs;
  }

  /** Every text over the alphabet is the encoding of exactly the bytes it decodes to. */
  lemma EncodeInvertsDecode(t: Text)
    requires Valid58(t)
    ensures Encoded(Decode(t).value) == t
  {
    hide Convert;
    var s := Numerals(t);
    var bs := AsBytes(Convert(s, 58, 256));
    assert AsNats(bs) == Convert(s, 58, 256);
    ConvertBack(s, 58, 256);
    assert Symbols(s) == t;
  }

  lemma SymbolsInverse(s: seq<nat>)
    requires Digits(s, 58)
    ensures Valid58(Symbols(s)) && Numerals(Symbols(s)) == s
  {
    forall i | 0 <= i < |s| ensures InAlphabet(Symbols(s)[i]) && DigitOf(Symbols(s)[i]) == s[i] {
      assert s[i] < 58;
    }
  }

  lemma EncodeInjective(a: seq<byte>, b: seq<byte>)
    requires Encoded(a) == Encoded(b)
    ensures a == b
  {
    DecodeInvertsEncode(a);
    DecodeInvertsEncode(b);
  }

  lemma EmptyDecodes()
    ensures Decode([]) == Some([])
  {
    assert Convert([], 58, 256) == [];
  }

  lemma EncodedNonEmpty(bs: seq<byte>)
    requires bs != []
    ensures Encoded(bs) != [] && Valid58(Encoded(bs))
  {
    hide Convert, Encoded;
    DecodeInvertsEncode(bs);
    EmptyDecodes();
  }
}
