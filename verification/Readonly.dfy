/**
  Decoding the u64 a readonly contract call returns: a JSON number, a decimal string, an array
  of bytes, or base64 (section 4 of RFC 4648) of little-endian bytes.
*/
module Readonly {
  import opened Bytes
  import opened JsonText
  import opened CanonicalJson
  import opened Amounts

  // ---------------------------------------------------------------------
  // Base64
  // ---------------------------------------------------------------------

  const PAD: Unit := 61

  /** The characters A-Z, a-z, 0-9, + and /. */
  function Symbol(d: nat): Unit
    requires d < 64
  {
    if d < 26 then 65 + d else if d < 52 then 97 + (d - 26) else if d < 62 then 48 + (d - 52)
    else if d == 62 then 43 else 47
  }

  predicate InAlphabet(u: Unit) {
    65 <= u <= 90 || 97 <= u <= 122 || 48 <= u <= 57 || u == 43 || u == 47
  }

  function DigitOf(u: Unit): (d: nat)
    requires InAlphabet(u)
    ensures d < 64 && Symbol(d) == u
  {
    if 65 <= u <= 90 then u - 65 else if 97 <= u <= 122 then u - 97 + 26 else if 48 <= u <= 57 then u - 48 + 52
    else if u == 43 then 62 else 63
  }

  /** Three bytes are four six-bit digits. */
  function D0(x: byte): (d: nat) ensures d < 64 { x / 4 }

  function D1(x: byte, y: byte): (d: nat) ensures d < 64 { x % 4 * 16 + y / 16 }

  function D2(y: byte, z: byte): (d: nat) ensures d < 64 { y % 16 * 4 + z / 64 }

  function D3(z: byte): (d: nat) ensures d < 64 { z % 64 }

  function B0(a: nat, b: nat): byte requires a < 64 && b < 64 { a * 4 + b / 16 }

  function B1(b: nat, c: nat): byte requires c < 64 { b % 16 * 16 + c / 4 }

  function B2(c: nat, d: nat): byte requires d < 64 { c % 4 * 64 + d }

  /** The bits that padding drops. */
  predicate LowFourZero(b: nat) { b % 16 == 0 }

  predicate LowTwoZero(c: nat) { c % 4 == 0 }

  function Encode64(bs: seq<byte>): Text {
    if bs == [] then []
    else if |bs| == 1 then [Symbol(D0(bs[0])), Symbol(D1(bs[0], 0)), PAD, PAD]
    else if |bs| == 2 then [Symbol(D0(bs[0])), Symbol(D1(bs[0], bs[1])), Symbol(D2(bs[1], 0)), PAD]
    else Group(bs[0], bs[1], bs[2]) + Encode64(bs[3..])
  }

  function Group(x: byte, y: byte, z: byte): (t: Text)
    ensures |t| == 4
  {
    [Symbol(D0(x)), Symbol(D1(x, y)), Symbol(D2(y, z)), Symbol(D3(z))]
  }

  /** The standard engine: padding is required, and the bits it drops must be zero. */
  function Decode64(t: Text): Option<seq<byte>> {
    if t == [] then Some([])
    else if |t| < 4 || !InAlphabet(t[0]) || !InAlphabet(t[1]) then None
    else
      var a, b := DigitOf(t[0]), DigitOf(t[1]);
      if |t| == 4 && t[2] == PAD && t[3] == PAD then
        if LowFourZero(b) then Some([B0(a, b)]) else None
      else if !InAlphabet(t[2]) then None
      else
        var c := DigitOf(t[2]);
        if |t| == 4 && t[3] == PAD then
          if LowTwoZero(c) then Some([B0(a, b), B1(b, c)]) else None
        else if !InAlphabet(t[3]) then None
        else
          var d, rest := DigitOf(t[3]), Decode64(t[4..]);
          if rest.None? then None else Some([B0(a, b), B1(b, c), B2(c, d)] + rest.value)
  }

  lemma SymbolDigit(d: nat)
    requires d < 64
    ensures InAlphabet(Symbol(d)) && DigitOf(Symbol(d)) == d && Symbol(d) != PAD
  {}

  lemma Regroup(x: byte, y: byte, z: byte)
    ensures B0(D0(x), D1(x, y)) == x && B1(D1(x, y), D2(y, z)) == y && B2(D2(y, z), D3(z)) == z
    ensures LowFourZero(D1(x, 0)) && LowTwoZero(D2(y, 0))
  {}

  lemma DecodeOne(x: byte)
    ensures Decode64(Encode64([x])) == Some([x])
  {
    hide Symbol, DigitOf, InAlphabet, D0, D1, D2, D3, B0, B1, B2, LowFourZero, LowTwoZero;
    Regroup(x, 0, 0);
    SymbolDigit(D0(x));
    SymbolDigit(D1(x, 0));
  }

  lemma DecodeTwo(x: byte, y: byte)
    ensures Decode64(Encode64([x, y])) == Some([x, y])
  {
    hide Symbol, DigitOf, InAlphabet, D0, D1, D2, B0, B1, LowFourZero, LowTwoZero;
    Regroup(x, y, 0);
    SymbolDigit(D0(x));
    SymbolDigit(D1(x, y));
    SymbolDigit(D2(y, 0));
  }

  lemma DecodeGroup(x: byte, y: byte, z: byte, rest: Text)
    requires Decode64(rest).Some?
    ensures Decode64(Group(x, y, z) + rest) == Some([x, y, z] + Decode64(rest).value)
  {
    hide Symbol, DigitOf, InAlphabet, D0, D1, D2, D3, B0, B1, B2, LowFourZero, LowTwoZero;
    Regroup(x, y, z);
    SymbolDigit(D0(x));
    SymbolDigit(D1(x, y));
    SymbolDigit(D2(y, z));
    SymbolDigit(D3(z));
    assert (Group(x, y, z) + rest)[4..] == rest;
  }

  lemma EncodeGroup(bs: seq<byte>)
    requires |bs| >= 3
    ensures Encode64(bs) == Group(bs[0], bs[1], bs[2]) + Encode64(bs[3..])
  {
    hide Group;
  }

  /** Any bytes are read back from their base64. */
  lemma {:induction false} Decode64Inverts(bs: seq<byte>)
    ensures Decode64(Encode64(bs)) == Some(bs)
    decreases |bs|
  {
    hide Decode64, Encode64, Group;
    if bs == [] {
      EmptyGroup();
    } else if |bs| == 1 {
      assert bs == [bs[0]];
      DecodeOne(bs[0]);
    } else if |bs| == 2 {
      assert bs == [bs[0], bs[1]];
      DecodeTwo(bs[0], bs[1]);
    } else {
      Decode64Inverts(bs[3..]);
      EncodeGroup(bs);
      DecodeGroup(bs[0], bs[1], bs[2], Encode64(bs[3..]));
      assert bs == [bs[0], bs[1], bs[2]] + bs[3..];
    }
  }

  lemma EmptyGroup()
    ensures Encode64([]) == [] && Decode64([]) == Some([])
  {}

  // ---------------------------------------------------------------------
  // The decoder
  // ---------------------------------------------------------------------

  /** The fields of the response that are looked at. */
  datatype Response = Response(success: Option<Json>, returnData: Option<Json>, snake: Option<Json>)

  function AsU64(j: Json): Option<nat> {
    if j.Num? && 0 <= j.n < U64 then Some(j.n) else None
  }

  /** `str::parse::<u64>`, which takes one leading plus sign. */
  function ParseText(t: Text): Option<nat> {
    var digits := if t != [] && t[0] == 43 then t[1..] else t;
    if AllDigits(digits) then ParseU64(digits) else None
  }

  function ParseJson(j: Json): Option<nat> {
    if AsU64(j).Some? then AsU64(j) else if j.Str? then ParseText(j.s) else None
  }

  predicate AllNumbers(items: seq<Json>) {
    forall i :: 0 <= i < |items| ==> AsU64(items[i]).Some?
  }

  /** The low bytes of the first eight numbers. */
  function FirstEight(items: seq<Json>): (bs: seq<byte>)
    requires |items| >= 8 && AllNumbers(items)
    ensures |bs| == 8
  {
    seq(8, i requires 0 <= i < 8 => AsU64(items[i]).value % 256)
  }

  function DecodeData(j: Json): Option<nat> {
    if ParseJson(j).Some? then ParseJson(j)
    else if j.Arr? && |j.items| >= 8 && AllNumbers(j.items) then Some(LittleEndian(FirstEight(j.items)))
    else if j.Str? && Decode64(j.s).Some? && |Decode64(j.s).value| >= 8 then
      Some(LittleEndian(Decode64(j.s).value[..8]))
    else None
  }

  function Decoded(r: Response): Option<nat> {
    var data := if r.returnData.Some? then r.returnData else r.snake;
    if r.success == Some(Bool(false)) || data.None? then None else DecodeData(data.value)
  }

  /** `decode_readonly_u64`; None where it fails. */
  method DecodeReadonly(r: Response) returns (value: Option<nat>)
    ensures value == Decoded(r)
  {
    hide ParseJson, Decode64;
    if r.success == Some(Bool(false)) {
      return None;
    }
    var data := if r.returnData.Some? then r.returnData else r.snake;
    if data.None? {
      return None;
    }
    var j := data.value;
    if ParseJson(j).Some? {
      return ParseJson(j);
    }
    if j.Arr? && |j.items| >= 8 && AllNumbers(j.items) {
      var raw := new byte[8];
      var index := 0;
      while index < 8
        invariant 0 <= index <= 8
        invariant forall k :: 0 <= k < index ==> raw[k] == FirstEight(j.items)[k]
      {
        raw[index] := AsU64(j.items[index]).value % 256;
        index := index + 1;
      }
      assert raw[..] == FirstEight(j.items);
      return Some(LittleEndian(raw[..]));
    }
    if j.Str? {
      var bytes := Decode64(j.s);
      if bytes.Some? && |bytes.value| >= 8 {
        return Some(LittleEndian(bytes.value[..8]));
      }
    }
    return None;
  }

  // ---------------------------------------------------------------------
  // Every encoding of a number decodes to it
  // ---------------------------------------------------------------------

  function ByteArray(bs: seq<byte>): Json {
    Arr(seq(|bs|, i requires 0 <= i < |bs| => Num(bs[i])))
  }

  lemma EightBytes()
    ensures Pow256(8) == U64
  {
    assert Pow256(2) == 65536;
    assert Pow256(4) == 256 * (256 * Pow256(2));
    assert Pow256(6) == 256 * (256 * Pow256(4));
  }

  lemma ByteNumber(b: byte)
    ensures AsU64(Num(b)) == Some(b) && (b as int) % 256 == b
  {}

  lemma NoNumber(items: seq<Json>)
    ensures AsU64(Arr(items)) == None
  {}

  lemma FromArray(bs: seq<byte>)
    requires |bs| == 8
    ensures DecodeData(ByteArray(bs)) == Some(LittleEndian(bs))
  {
    hide LittleEndian, Decode64, ParseText, AsU64;
    var items := ByteArray(bs).items;
    forall i | 0 <= i < 8 ensures AsU64(items[i]).Some? && AsU64(items[i]).value % 256 == bs[i] {
      assert items[i] == Num(bs[i]);
      ByteNumber(bs[i]);
    }
    assert FirstEight(items) == bs;
    NoNumber(items);
  }

  lemma {:induction false} EncodedLength(bs: seq<byte>)
    ensures |Encode64(bs)| == (|bs| + 2) / 3 * 4
    ensures |bs| % 3 != 0 ==> Encode64(bs)[|Encode64(bs)| - 1] == PAD
    decreases |bs|
  {
    hide Symbol, Group;
    if |bs| >= 3 {
      EncodedLength(bs[3..]);
    }
  }

  /** Base64 that ends in padding is never also a decimal. */
  lemma PaddedIsNoDecimal(bs: seq<byte>)
    requires |bs| % 3 != 0
    ensures ParseText(Encode64(bs)) == None
  {
    hide Encode64;
    EncodedLength(bs);
    var t := Encode64(bs);
    assert t[|t| - 1] == PAD && !IsDigit(PAD);
    assert t[1..][|t| - 2] == PAD;
  }

  /** Eight bytes or more, in base64, decode to the first eight of them, unless the text can also
      be read as a decimal; then it decodes to that. With a number of bytes that is not a multiple
      of three it cannot. */
  lemma Base64Decodes(bs: seq<byte>)
    requires |bs| >= 8
    ensures var decimal := ParseText(Encode64(bs));
            DecodeData(Str(Encode64(bs))) == if decimal.Some? then decimal else Some(LittleEndian(bs[..8]))
    ensures |bs| % 3 != 0 ==> DecodeData(Str(Encode64(bs))) == Some(LittleEndian(bs[..8]))
  {
    hide Encode64, Decode64, ParseText, LittleEndian;
    Decode64Inverts(bs);
    if |bs| % 3 != 0 {
      PaddedIsNoDecimal(bs);
    }
  }

  lemma ZeroGroup()
    ensures Group(211, 77, 52) == Zeros(4)
  {}

  function NineBytes(): seq<byte> { [211, 77, 52, 211, 77, 52, 211, 77, 52] }

  lemma NineBytesText()
    ensures Encode64(NineBytes()) == Zeros(12)
  {
    hide Group, Encode64;
    var bs := NineBytes();
    EncodeGroup(bs);
    EncodeGroup(bs[3..]);
    EncodeGroup(bs[3..][3..]);
    EmptyGroup();
    ZeroGroup();
    assert bs[3..][3..][3..] == [];
    assert Zeros(12) == Zeros(4) + (Zeros(4) + (Zeros(4) + []));
  }

  lemma ZerosAreDecimal()
    ensures ParseText(Zeros(12)) == Some(0)
  {
    hide DigitValue;
    ZerosBefore(12, []);
    NoDigits();
    assert Zeros(12) + [] == Zeros(12);
  }

  lemma FirstByteCounts(s: seq<byte>)
    requires s != [] && s[0] > 0
    ensures LittleEndian(s) > 0
  {}

  /** Nine bytes can be misread: these are written as twelve zeros. */
  lemma NineBytesMisread()
    ensures DecodeData(Str(Encode64(NineBytes()))) == Some(0) && LittleEndian(NineBytes()[..8]) > 0
  {
    hide Encode64, Decode64, ParseText, LittleEndian;
    NineBytesText();
    ZerosAreDecimal();
    FirstByteCounts(NineBytes()[..8]);
  }

  /** A number, its decimal text, its little-endian bytes and their base64 all decode to it. */
  lemma EveryEncodingDecodes(n: nat)
    requires n < U64
    ensures var bytes := ToLittleEndian(n, 8);
            && DecodeData(Num(n)) == Some(n)
            && DecodeData(Str(Digits(n))) == Some(n)
            && DecodeData(ByteArray(bytes)) == Some(n)
            && DecodeData(Str(Encode64(bytes))) == Some(n)
  {
    hide Digits, Encode64, Decode64, DigitValue;
    var bytes := ToLittleEndian(n, 8);
    EightBytes();
    LittleEndianInverse(n, 8);
    FromArray(bytes);
    DigitsValue(n);
    assert Digits(n)[0] != 43;
    Decode64Inverts(bytes);
    PaddedIsNoDecimal(bytes);
    assert bytes[..8] == bytes;
  }

  // ---------------------------------------------------------------------
  // Exactly what decodes
  // ---------------------------------------------------------------------

  lemma Degroup(a: nat, b: nat, c: nat, d: nat)
    requires a < 64 && b < 64 && c < 64 && d < 64
    ensures D0(B0(a, b)) == a && D1(B0(a, b), B1(b, c)) == b && D2(B1(b, c), B2(c, d)) == c && D3(B2(c, d)) == d
    ensures LowFourZero(b) ==> D1(B0(a, b), 0) == b
    ensures LowTwoZero(c) ==> D2(B1(b, c), 0) == c
  {}

  /** Only the base64 of some bytes is read as base64. */
  lemma {:induction false} Encode64Inverts(t: Text)
    requires Decode64(t).Some?
    ensures Encode64(Decode64(t).value) == t
    decreases |t|
  {
    hide Symbol, DigitOf, InAlphabet, D0, D1, D2, D3, B0, B1, B2, LowFourZero, LowTwoZero;
    if t != [] {
      var a, b := DigitOf(t[0]), DigitOf(t[1]);
      var c := if InAlphabet(t[2]) then DigitOf(t[2]) else 0;
      var d := if InAlphabet(t[3]) then DigitOf(t[3]) else 0;
      Degroup(a, b, c, d);
      PadIsNoSymbol();
      if |t| > 4 || (t[2] != PAD && t[3] != PAD) {
        Encode64Inverts(t[4..]);
        var bs := Decode64(t).value;
        assert bs[3..] == Decode64(t[4..]).value;
        EncodeGroup(bs);
        assert t == [t[0], t[1], t[2], t[3]] + t[4..];
      } else {
        assert t == [t[0], t[1], t[2], t[3]];
      }
    }
  }

  lemma PadIsNoSymbol()
    ensures !InAlphabet(PAD)
  {}

  /** A decimal, with or without a plus sign, that fits 64 bits. */
  ghost predicate IsDecimal(t: Text, n: nat) {
    && n < U64
    && exists digits: Text ::
         digits != [] && AllDigits(digits) && (t == digits || t == [43] + digits) && DigitValue(digits) == n
  }

  lemma DecimalIff(t: Text, n: nat)
    ensures ParseText(t) == Some(n) <==> IsDecimal(t, n)
  {
    hide DigitValue;
    var digits := if t != [] && t[0] == 43 then t[1..] else t;
    assert t == digits || t == [43] + digits;
    forall ds: Text | ds != [] && AllDigits(ds) && (t == ds || t == [43] + ds) ensures ds == digits {
      assert IsDigit(ds[0]);
      assert t == [43] + ds ==> t[1..] == ds;
    }
  }

  predicate IsNumber(j: Json) { j.Num? && 0 <= j.n < U64 }

  /** The value says `n`: as a number, a decimal, an array of at least eight numbers, or base64 of at
      least eight bytes that is not also a decimal; the last two in little-endian order. */
  ghost predicate DataSays(j: Json, n: nat) {
    match j
    case Num(m) => m == n < U64
    case Str(t) =>
      || IsDecimal(t, n)
      || ((forall m: nat :: !IsDecimal(t, m)) && n < U64 &&
          exists bs: seq<byte> :: |bs| >= 8 && Encode64(bs) == t && bs[..8] == ToLittleEndian(n, 8))
    case Arr(items) =>
      && |items| >= 8 && n < U64 && (forall i :: 0 <= i < |items| ==> IsNumber(items[i]))
      && forall i :: 0 <= i < 8 ==> items[i].n % 256 == ToLittleEndian(n, 8)[i]
    case _ => false
  }

  lemma EightSay(bs: seq<byte>, n: nat)
    requires |bs| == 8
    ensures LittleEndian(bs) == n <==> n < U64 && bs == ToLittleEndian(n, 8)
  {
    hide ToLittleEndian, LittleEndian, Pow256;
    EightBytes();
    ToLittleEndianInverse(bs);
    if n < U64 {
      LittleEndianInverse(n, 8);
    }
  }

  lemma TextDecodes(t: Text, n: nat)
    ensures DecodeData(Str(t)) == Some(n) <==> DataSays(Str(t), n)
  {
    hide ParseText, IsDecimal, Decode64, Encode64, LittleEndian, ToLittleEndian;
    forall m: nat ensures ParseText(t) == Some(m) <==> IsDecimal(t, m) {
      DecimalIff(t, m);
    }
    if ParseText(t).None? {
      if Decode64(t).Some? && |Decode64(t).value| >= 8 {
        Encode64Inverts(t);
        EightSay(Decode64(t).value[..8], n);
      }
      forall bs: seq<byte> | Encode64(bs) == t ensures Decode64(t) == Some(bs) {
        Decode64Inverts(bs);
      }
    } else {
      assert IsDecimal(t, ParseText(t).value);
    }
  }

  lemma ArrayDecodes(items: seq<Json>, n: nat)
    ensures DecodeData(Arr(items)) == Some(n) <==> DataSays(Arr(items), n)
  {
    hide LittleEndian, ToLittleEndian;
    if |items| >= 8 && AllNumbers(items) {
      var bs := FirstEight(items);
      EightSay(bs, n);
      assert forall i :: 0 <= i < 8 ==> bs[i] == items[i].n % 256;
      if n < U64 && forall i :: 0 <= i < 8 ==> items[i].n % 256 == ToLittleEndian(n, 8)[i] {
        assert bs == ToLittleEndian(n, 8);
      }
    }
  }

  /** `decode_readonly_u64`: a response decodes to `n` if and only if it does not say it failed and
      its data, under the first of the two names that is present, says `n`. */
  lemma DecodesIff(r: Response, n: nat)
    ensures Decoded(r) == Some(n) <==>
            && r.success != Some(Bool(false))
            && (if r.returnData.Some? then DataSays(r.returnData.value, n)
                else r.snake.Some? && DataSays(r.snake.value, n))
  {
    hide DataSays, DecodeData;
    if r.returnData.Some? {
      ValueDecodes(r.returnData.value, n);
    } else if r.snake.Some? {
      ValueDecodes(r.snake.value, n);
    }
  }

  lemma ValueDecodes(j: Json, n: nat)
    ensures DecodeData(j) == Some(n) <==> DataSays(j, n)
  {
    match j
    case Str(t) => TextDecodes(t, n);
    case Arr(items) => ArrayDecodes(items, n);
    case _ =>
  }
}
