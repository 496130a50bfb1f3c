/**
  Text as JavaScript sees it, UTF-16 code units, and the two leaf formats of
  `JSON.stringify` that need care: integers and quoted strings.
*/
module JsonText {
  import opened Bytes
  import opened Arithmetic

  type Unit = x: int | 0 <= x < 65536
  type Text = seq<Unit>

  const QUOTE: Unit := 0x22
  const BACKSLASH: Unit := 0x5C
  const MINUS: Unit := 0x2D

  // ---------------------------------------------------------------------
  // Decimal integers
  // ---------------------------------------------------------------------

  predicate IsDigit(u: Unit) { 48 <= u <= 57 }

  function Digits(n: nat): (t: Text)
    ensures |t| > 0 && forall i :: 0 <= i < |t| ==> IsDigit(t[i])
  {
    if n < 10 then [48 + n] else Digits(n / 10) + [48 + n % 10]
  }

  function Decimal(n: int): Text {
    if n < 0 then [MINUS] + Digits(-n) else Digits(n)
  }

  function DigitValue(t: Text): nat
    requires forall i :: 0 <= i < |t| ==> IsDigit(t[i])
  {
    if t == [] then 0
    else
      assert IsDigit(t[|t| - 1]);
      10 * DigitValue(t[..|t| - 1]) + (t[|t| - 1] as int - 48)
  }

  lemma {:induction false} DigitsValue(n: nat)
    ensures DigitValue(Digits(n)) == n
  {
    if n < 10 {
      assert DigitValue([]) == 0;
      assert Digits(n)[..0] == [];
    } else {
      DigitsValue(n / 10);
      assert Digits(n)[..|Digits(n)| - 1] == Digits(n / 10);
    }
  }

  /** The rest of a text does not go on with a digit. */
  predicate NoDigit(x: Text) {
    x == [] || !IsDigit(x[0])
  }

  /** A run of digits is not continued by a rest that starts with none. */
  lemma RunEnds(a: Text, b: Text, x: Text, y: Text)
    requires a + x == b + y && NoDigit(x) && forall i :: 0 <= i < |b| ==> IsDigit(b[i])
    ensures |b| <= |a|
  {
    assert forall i :: 0 <= i < |b| ==> (b + y)[i] == b[i];
    assert x == [] || (a + x)[|a|] == x[0];
  }

  lemma DigitsPrefix(m: nat, n: nat, x: Text, y: Text)
    requires NoDigit(x) && NoDigit(y) && Digits(m) + x == Digits(n) + y
    ensures m == n && x == y
  {
    var a, b := Digits(m), Digits(n);
    RunEnds(a, b, x, y);
    RunEnds(b, a, y, x);
    assert (a + x)[..|a|] == a && (b + y)[..|b|] == b;
    assert (a + x)[|a|..] == x && (b + y)[|b|..] == y;
    DigitsValue(m);
    DigitsValue(n);
  }

  /** Where a decimal ends is decided by the first unit that is no digit. */
  lemma DecimalPrefix(m: int, n: int, x: Text, y: Text)
    requires NoDigit(x) && NoDigit(y) && Decimal(m) + x == Decimal(n) + y
    ensures m == n && x == y
  {
    hide Digits;
    DecimalFirst(m);
    DecimalFirst(n);
    assert (Decimal(m) + x)[0] == Decimal(m)[0] && (Decimal(n) + y)[0] == Decimal(n)[0];
    if m < 0 {
      DropMinus(Digits(-m), x);
      DropMinus(Digits(-n), y);
      DigitsPrefix(-m, -n, x, y);
    } else {
      DigitsPrefix(m, n, x, y);
    }
  }

  lemma DropMinus(digits: Text, x: Text)
    ensures ([MINUS] + digits + x)[1..] == digits + x
  {}

  lemma DecimalFirst(n: int)
    ensures |Decimal(n)| > 0 && (if n < 0 then Decimal(n)[0] == MINUS else IsDigit(Decimal(n)[0]))
  {}

  // ---------------------------------------------------------------------
  // Quoted strings
  // ---------------------------------------------------------------------

  predicate IsHigh(u: Unit) { 0xD800 <= u < 0xDC00 }

  predicate IsLow(u: Unit) { 0xDC00 <= u < 0xE000 }

  function HexDigit(n: nat): (u: Unit)
    requires n < 16
  {
    if n < 10 then 48 + n else 87 + n
  }

  function Hex4(u: Unit): (t: Text)
    ensures |t| == 4
  {
    [HexDigit(u / 4096), HexDigit(u / 256 % 16), HexDigit(u / 16 % 16), HexDigit(u % 16)]
  }

  /** The letter after the backslash of a short escape, or 0. */
  function Short(u: Unit): Unit {
    if u == QUOTE || u == BACKSLASH then u
    else if u == 8 then 98 else if u == 9 then 116 else if u == 10 then 110
    else if u == 12 then 102 else if u == 13 then 114 else 0
  }

  predicate NeedsHex(u: Unit) {
    Short(u) == 0 && (u < 0x20 || IsHigh(u) || IsLow(u))
  }

  /** A surrogate pair at the front of a text is written as it is. */
  predicate StartsPair(s: Text) {
    |s| > 1 && IsHigh(s[0]) && IsLow(s[1])
  }

  function EscapeUnit(u: Unit): (t: Text)
    ensures |t| > 0
  {
    if Short(u) != 0 then [BACKSLASH, Short(u)]
    else if NeedsHex(u) then [BACKSLASH, 117] + Hex4(u)
    else [u]
  }

  /** How many units of `s` its first written piece stands for. */
  function Taken(s: Text): (n: nat)
    requires s != []
    ensures 0 < n <= |s|
  {
    if StartsPair(s) then 2 else 1
  }

  function Piece(s: Text): (t: Text)
    requires s != []
    ensures |t| > 0
  {
    if StartsPair(s) then s[..2] else EscapeUnit(s[0])
  }

  function Escape(s: Text): Text {
    if s == [] then [] else Piece(s) + Escape(s[Taken(s)..])
  }

  function Quoted(s: Text): Text {
    [QUOTE] + Escape(s) + [QUOTE]
  }

  lemma HexDigitInjective(m: nat, n: nat)
    requires m < 16 && n < 16 && HexDigit(m) == HexDigit(n)
    ensures m == n
  {}

  lemma HexInjective(u: Unit, v: Unit)
    requires Hex4(u) == Hex4(v)
    ensures u == v
  {
    HexDigitInjective(u / 4096, v / 4096);
    HexDigitInjective(u / 256 % 16, v / 256 % 16);
    HexDigitInjective(u / 16 % 16, v / 16 % 16);
    HexDigitInjective(u % 16, v % 16);
    HexSum(u);
    HexSum(v);
  }

  lemma HexSum(u: Unit)
    ensures u == 4096 * (u / 4096) + 256 * (u / 256 % 16) + 16 * (u / 16 % 16) + u % 16
  {
    var a: int, b: int, c: int := u / 16, u / 256, u / 4096;
    assert b == a / 16 && c == b / 16;
  }

  /** A piece never starts with a quote, so the closing quote is unmistakable. */
  lemma PieceFirst(s: Text)
    requires s != []
    ensures Piece(s)[0] != QUOTE
    ensures Piece(s)[0] == BACKSLASH <==> !StartsPair(s) && (Short(s[0]) != 0 || NeedsHex(s[0]))
    ensures IsHigh(Piece(s)[0]) <==> StartsPair(s)
  {}

  /** Pieces can be told apart and their ends found. */
  lemma PiecePrefix(s: Text, t: Text, x: Text, y: Text)
    requires s != [] && t != [] && Piece(s) + x == Piece(t) + y
    ensures Taken(s) == Taken(t) && s[..Taken(s)] == t[..Taken(t)] && x == y
  {
    hide Hex4;
    var p, q := Piece(s), Piece(t);
    var w := p + x;
    assert w[0] == p[0] == q[0];
    PieceFirst(s);
    PieceFirst(t);
    assert |p| > 1 ==> w[1] == p[1];
    assert |q| > 1 ==> w[1] == q[1];
    assert |p| == |q|;
    assert w[..|p|] == p && (q + y)[..|q|] == q;
    assert w[|p|..] == x && (q + y)[|q|..] == y;
    if StartsPair(s) {
      assert s[..2] == t[..2];
    } else if |p| == 6 {
      assert p[2..] == Hex4(s[0]) && q[2..] == Hex4(t[0]);
      HexInjective(s[0], t[0]);
    }
  }

  lemma {:induction false} EscapePrefix(s: Text, t: Text, x: Text, y: Text)
    requires Escape(s) + [QUOTE] + x == Escape(t) + [QUOTE] + y
    ensures s == t && x == y
    decreases |s|
  {
    hide Piece, Taken;
    var w := Escape(s) + [QUOTE] + x;
    if s != [] {
      assert w[0] == Piece(s)[0];
      PieceFirst(s);
    } else {
      assert w[0] == QUOTE;
    }
    if t != [] {
      assert (Escape(t) + [QUOTE] + y)[0] == Piece(t)[0];
      PieceFirst(t);
    }
    if s == [] || t == [] {
      assert w[1..] == x && (Escape(t) + [QUOTE] + y)[1..] == y;
    } else {
      var s', t' := s[Taken(s)..], t[Taken(t)..];
      assert Escape(s) + [QUOTE] + x == Piece(s) + (Escape(s') + [QUOTE] + x);
      assert Escape(t) + [QUOTE] + y == Piece(t) + (Escape(t') + [QUOTE] + y);
      PiecePrefix(s, t, Escape(s') + [QUOTE] + x, Escape(t') + [QUOTE] + y);
      EscapePrefix(s', t', x, y);
      assert s == s[..Taken(s)] + s' && t == t[..Taken(t)] + t';
    }
  }

  /** A quoted string ends where it says, and says what it stands for. */
  lemma QuotedPrefix(s: Text, t: Text, x: Text, y: Text)
    requires Quoted(s) + x == Quoted(t) + y
    ensures s == t && x == y
  {
    hide Escape;
    assert (Quoted(s) + x)[1..] == Escape(s) + [QUOTE] + x;
    assert (Quoted(t) + y)[1..] == Escape(t) + [QUOTE] + y;
    EscapePrefix(s, t, x, y);
  }
}
