/**
  Exclusive or on the natural numbers, as Python's `^` on non-negative integers.
*/
module BitwiseXor {
  import opened Arithmetic

  function Xor(a: nat, b: nat): nat
    decreases a + b
  {
    if a == 0 && b == 0 then 0 else (a + b) % 2 + 2 * Xor(a / 2, b / 2)
  }

  lemma {:induction false} Commutes(a: nat, b: nat)
    ensures Xor(a, b) == Xor(b, a)
    decreases a + b
  {
    if a != 0 || b != 0 {
      Commutes(a / 2, b / 2);
    }
  }

  lemma {:induction false} Zero(a: nat)
    ensures Xor(a, 0) == a && Xor(0, a) == a
  {
    if a != 0 {
      Zero(a / 2);
    }
  }

  lemma {:induction false} Self(a: nat)
    ensures Xor(a, a) == 0
  {
    if a != 0 {
      Self(a / 2);
    }
  }

  lemma ThreeHalves(a: nat, b: nat, c: nat)
    ensures Xor(Xor(a, b), c) / 2 == Xor(Xor(a / 2, b / 2), c / 2)
    ensures Xor(a, Xor(b, c)) / 2 == Xor(a / 2, Xor(b / 2, c / 2))
  {
    Halves(a, b); Halves(Xor(a, b), c);
    Halves(b, c); Halves(a, Xor(b, c));
  }

  lemma ThreeParities(a: nat, b: nat, c: nat)
    ensures Xor(Xor(a, b), c) % 2 == Xor(a, Xor(b, c)) % 2
  {
    var ab, bc := Xor(a, b), Xor(b, c);
    Halves(a, b); Halves(ab, c);
    Halves(b, c); Halves(a, bc);
    SumParity(a, b, c, ab, bc);
  }

  lemma SumParity(a: nat, b: nat, c: nat, ab: nat, bc: nat)
    requires ab % 2 == (a + b) % 2 && bc % 2 == (b + c) % 2
    ensures (ab + c) % 2 == (a + bc) % 2
  {}

  lemma {:induction false} Associates(a: nat, b: nat, c: nat)
    ensures Xor(Xor(a, b), c) == Xor(a, Xor(b, c))
    decreases a + b + c
  {
    if a != 0 || b != 0 || c != 0 {
      Associates(a / 2, b / 2, c / 2);
      ThreeHalves(a, b, c);
      ThreeParities(a, b, c);
    }
  }

  /** The defining equation, on every argument. */
  lemma Halves(a: nat, b: nat)
    ensures Xor(a, b) / 2 == Xor(a / 2, b / 2)
    ensures Xor(a, b) % 2 == (a + b) % 2
  {}

  /** Exclusive or with the same value cancels. */
  lemma Cancels(a: nat, b: nat, c: nat)
    requires Xor(a, c) == Xor(b, c)
    ensures a == b
  {
    Associates(a, c, c);
    Associates(b, c, c);
    Self(c);
    Zero(a);
    Zero(b);
  }

  /** (a ^ b) ^ (c ^ d) == (a ^ c) ^ (b ^ d). */
  lemma Exchanges(a: nat, b: nat, c: nat, d: nat)
    ensures Xor(Xor(a, b), Xor(c, d)) == Xor(Xor(a, c), Xor(b, d))
  {
    Associates(a, b, Xor(c, d));
    Associates(b, c, d);
    Commutes(b, c);
    Associates(c, b, d);
    Associates(a, c, Xor(b, d));
  }

  lemma {:induction false} Bounded(a: nat, b: nat, n: nat)
    requires a < Pow2(n) && b < Pow2(n)
    ensures Xor(a, b) < Pow2(n)
  {
    if n > 0 {
      Bounded(a / 2, b / 2, n - 1);
    }
  }

  /** Python's `a >> n`. */
  function Shr(a: nat, n: nat): nat {
    if n == 0 then a else Shr(a / 2, n - 1)
  }

  /** A shift right distributes over exclusive or. */
  lemma {:induction false} ShrXor(a: nat, b: nat, n: nat)
    ensures Shr(Xor(a, b), n) == Xor(Shr(a, n), Shr(b, n))
  {
    if n > 0 {
      Halves(a, b);
      ShrXor(a / 2, b / 2, n - 1);
    }
  }

  lemma {:induction false} ShrSmall(a: nat, n: nat)
    requires a < Pow2(n)
    ensures Shr(a, n) == 0
  {
    if n > 0 {
      ShrSmall(a / 2, n - 1);
    }
  }

  /** Low part and high part do not overlap, so their sum is their exclusive or. */
  lemma {:induction false} LowHigh(low: nat, high: nat, n: nat)
    requires low < Pow2(n)
    ensures Xor(low, Pow2(n) * high) == low + Pow2(n) * high
  {
    hide Xor;
    if n == 0 {
      Zero(high);
    } else {
      LowHigh(low / 2, high, n - 1);
      var half := Pow2(n - 1) * high;
      assert Pow2(n) * high == 2 * half;
      Halves(low, 2 * half);
      FromHalves(low, half, Xor(low, 2 * half));
    }
  }

  lemma FromHalves(low: nat, half: nat, x: nat)
    requires x / 2 == low / 2 + half && x % 2 == (low + 2 * half) % 2
    ensures x == low + 2 * half
  {
  }

  /** Exclusive or, one binary digit more. */
  lemma XorBit(a: nat, b: nat, c: nat, x: nat, y: nat)
    requires x < 2 && y < 2 && Xor(a, b) == c
    ensures Xor(2 * a + x, 2 * b + y) == 2 * c + if x == y then 0 else 1
  {
    hide Xor;
    Halves(2 * a + x, 2 * b + y);
    assert (2 * a + x) / 2 == a && (2 * b + y) / 2 == b;
    LowBit(a + b, x + y);
  }

  lemma LowBit(n: nat, k: nat)
    requires k <= 2
    ensures (2 * n + k) % 2 == if k == 1 then 1 else 0
  {}

  /** Exclusive or, one hexadecimal digit more. */
  lemma XorDigit(a: nat, b: nat, c: nat, x3: nat, x2: nat, x1: nat, x0: nat, y3: nat, y2: nat, y1: nat, y0: nat)
    requires x3 < 2 && x2 < 2 && x1 < 2 && x0 < 2 && y3 < 2 && y2 < 2 && y1 < 2 && y0 < 2 && Xor(a, b) == c
    ensures Xor(16 * a + 8 * x3 + 4 * x2 + 2 * x1 + x0, 16 * b + 8 * y3 + 4 * y2 + 2 * y1 + y0)
         == 16 * c + 8 * (if x3 == y3 then 0 else 1) + 4 * (if x2 == y2 then 0 else 1)
            + 2 * (if x1 == y1 then 0 else 1) + if x0 == y0 then 0 else 1
  {
    hide Xor;
    var d3 := 2 * c + if x3 == y3 then 0 else 1;
    var d2 := 2 * d3 + if x2 == y2 then 0 else 1;
    var d1 := 2 * d2 + if x1 == y1 then 0 else 1;
    XorBit(a, b, c, x3, y3);
    XorBit(2 * a + x3, 2 * b + y3, d3, x2, y2);
    XorBit(4 * a + 2 * x3 + x2, 4 * b + 2 * y3 + y2, d2, x1, y1);
    XorBit(8 * a + 4 * x3 + 2 * x2 + x1, 8 * b + 4 * y3 + 2 * y2 + y1, d1, x0, y0);
  }

  /** Exclusive or with all ones is the complement. */
  lemma {:induction false} Complement(a: nat, n: nat)
    requires a < Pow2(n)
    ensures Xor(Pow2(n) - 1, a) == Pow2(n) - 1 - a
  {
    hide Xor;
    if n == 0 {
      Zero(0);
    } else {
      var p := Pow2(n - 1);
      Complement(a / 2, n - 1);
      XorBit(p - 1, a / 2, p - 1 - a / 2, 1, a % 2);
      assert 2 * (p - 1) + 1 == Pow2(n) - 1 && 2 * (a / 2) + a % 2 == a;
    }
  }
}

/**
  CRC-32C as the WAL tool computes it: a 256-entry table, one lookup a byte.
  Two references, each independent of the table: the bit-serial shift register
  of the reflected Castagnoli polynomial (section 12.1 of RFC 3720), and the
  division of the whole message, taken as one integer, by that polynomial.
*/
module Crc32c {
  import opened Arithmetic
  import opened Bytes
  import opened BitwiseXor

  const POLYNOMIAL: nat := 0x82F6_3B78
  const ALL_ONES: nat := 0xFFFF_FFFF
  const WORD: nat := 0x1_0000_0000
  const CRC32C_MASK_DELTA: nat := 0xA282_EAD8

  // ---------------------------------------------------------------------
  // References
  // ---------------------------------------------------------------------

  /** One shift of the register when the message bit arriving at its low end is `bit`. */
  function FeedBit(r: nat, bit: nat): nat {
    Xor(r / 2, Select(r + bit, POLYNOMIAL))
  }

  /** The low `n` bits of `bits`, least significant first. */
  function FeedBits(r: nat, bits: nat, n: nat): nat
    decreases n
  {
    if n == 0 then r else FeedBits(FeedBit(r, bits % 2), bits / 2, n - 1)
  }

  function Feed(r: nat, data: seq<byte>): nat
    decreases data
  {
    if data == [] then r else Feed(FeedBits(r, data[0], 8), data[1..])
  }

  /** CRC-32C bit by bit: register preset to ones, result complemented. */
  function Checksum(data: seq<byte>): nat {
    Xor(Feed(ALL_ONES, data), ALL_ONES)
  }

  /** One division step: clear the low bit with the polynomial, then shift it out. */
  function Step(r: nat): nat {
    Xor(r / 2, Select(r, POLYNOMIAL))
  }

  function Steps(r: nat, n: nat): nat
    decreases n
  {
    if n == 0 then r else Steps(Step(r), n - 1)
  }

  // ---------------------------------------------------------------------
  // A step is linear and, on 32-bit registers, injective
  // ---------------------------------------------------------------------

  function Select(r: nat, p: nat): nat {
    if r % 2 == 1 then p else 0
  }

  lemma SelectXor(a: nat, b: nat, p: nat)
    ensures Select(Xor(a, b), p) == Xor(Select(a, p), Select(b, p))
  {
    hide Xor;
    Halves(a, b);
    SelectSum(a, b, Xor(a, b), p);
    Zero(Select(b, p));
    Zero(p);
    Self(p);
  }

  lemma SelectSum(a: nat, b: nat, sum: nat, p: nat)
    requires sum % 2 == (a + b) % 2
    ensures a % 2 == 0 ==> Select(sum, p) == Select(b, p)
    ensures a % 2 == 1 && b % 2 == 0 ==> Select(sum, p) == p
    ensures a % 2 == 1 && b % 2 == 1 ==> Select(sum, p) == 0
  {}

  lemma StepXor(a: nat, b: nat)
    ensures Step(Xor(a, b)) == Xor(Step(a), Step(b))
  {
    var p := POLYNOMIAL;
    calc {
      Step(Xor(a, b));
      Xor(Xor(a, b) / 2, Select(Xor(a, b), p));
    == { Halves(a, b); SelectXor(a, b, p); }
      Xor(Xor(a / 2, b / 2), Xor(Select(a, p), Select(b, p)));
    == { Exchanges(a / 2, b / 2, Select(a, p), Select(b, p)); }
      Xor(Xor(a / 2, Select(a, p)), Xor(b / 2, Select(b, p)));
      Xor(Step(a), Step(b));
    }
  }

  lemma {:induction false} StepsXor(a: nat, b: nat, n: nat)
    ensures Steps(Xor(a, b), n) == Xor(Steps(a, n), Steps(b, n))
    decreases n
  {
    hide Xor, Step;
    if n > 0 {
      StepXor(a, b);
      StepsXor(Step(a), Step(b), n - 1);
    }
  }

  lemma WordIsPow2()
    ensures Pow2(31) == 0x8000_0000 && Pow2(32) == WORD && Pow2(8) == 256
  {
    assert Pow2(8) == 256;
    assert Pow2(16) == 0x1_0000;
    assert Pow2(24) == 0x100_0000;
    assert Pow2(31) == 0x8000_0000;
  }

  lemma StepBounded(r: nat)
    requires r < WORD
    ensures Step(r) < WORD
  {
    WordIsPow2();
    Bounded(r / 2, Select(r, POLYNOMIAL), 32);
  }

  lemma {:induction false} StepsBounded(r: nat, n: nat)
    requires r < WORD
    ensures Steps(r, n) < WORD
    decreases n
  {
    if n > 0 {
      StepBounded(r);
      StepsBounded(Step(r), n - 1);
    }
  }

  /** The polynomial's top bit is set: bit 31 after a step is bit 0 before it. */
  lemma StepTopBit(r: nat)
    requires r < WORD
    ensures Shr(Step(r), 31) == r % 2
  {
    WordIsPow2();
    ShrSmall(r / 2, 31);
    ShrSmall(0, 31);
    assert Shr(POLYNOMIAL, 31) == 1 by {
      assert Shr(POLYNOMIAL, 31) == Shr(0x82_F63B, 23);
      assert Shr(0x82_F63B, 23) == Shr(0x82F6, 15);
      assert Shr(0x82F6, 15) == Shr(0x82, 7);
    }
    ShrXor(r / 2, Select(r, POLYNOMIAL), 31);
    Zero(0);
    Zero(1);
  }

  lemma StepInjective(a: nat, b: nat)
    requires a < WORD && b < WORD && Step(a) == Step(b)
    ensures a == b
  {
    StepTopBit(a);
    StepTopBit(b);
    Cancels(a / 2, b / 2, Select(a, POLYNOMIAL));
  }

  lemma {:induction false} StepsInjective(a: nat, b: nat, n: nat)
    requires a < WORD && b < WORD && Steps(a, n) == Steps(b, n)
    ensures a == b
    decreases n
  {
    if n > 0 {
      StepBounded(a);
      StepBounded(b);
      StepsInjective(Step(a), Step(b), n - 1);
      StepInjective(a, b);
    }
  }

  lemma {:induction false} StepsCompose(r: nat, m: nat, n: nat)
    ensures Steps(Steps(r, m), n) == Steps(r, m + n)
    decreases m
  {
    if m > 0 {
      StepsCompose(Step(r), m - 1, n);
    }
  }

  /** Steps over clear low bits are a plain shift. */
  lemma {:induction false} StepsShift(r: nat, n: nat)
    ensures Steps(Pow2(n) * r, n) == r
  {
    if n > 0 {
      var half := Pow2(n - 1) * r;
      assert Pow2(n) * r == 2 * half;
      Zero(half);
      StepsShift(r, n - 1);
    }
  }

  // ---------------------------------------------------------------------
  // The references agree
  // ---------------------------------------------------------------------

  lemma FeedBitIsStep(r: nat, bits: nat)
    ensures Step(Xor(r, bits)) == Xor(FeedBit(r, bits % 2), bits / 2)
  {
    hide Xor;
    var p := Select(r + bits % 2, POLYNOMIAL);
    Halves(r, bits);
    assert (r + bits) % 2 == (r + bits % 2) % 2;
    Associates(r / 2, bits / 2, p);
    Commutes(bits / 2, p);
    Associates(r / 2, p, bits / 2);
  }

  /** Feeding `n` bits is `n` division steps on the register with those bits mixed in. */
  lemma {:induction false} FeedBitsDivides(r: nat, bits: nat, n: nat)
    requires bits < Pow2(n)
    ensures FeedBits(r, bits, n) == Steps(Xor(r, bits), n)
    decreases n
  {
    if n == 0 {
      Zero(r);
    } else {
      var fed := FeedBit(r, bits % 2);
      FeedBitIsStep(r, bits);
      FeedBitsDivides(fed, bits / 2, n - 1);
    }
  }

  /** The bit-serial register divides the message, read as one little-endian integer. */
  lemma {:induction false} FeedDivides(r: nat, data: seq<byte>)
    ensures Feed(r, data) == Steps(Xor(r, LittleEndian(data)), 8 * |data|)
    decreases data
  {
    hide Xor, Step, FeedBits;
    if data == [] {
      Zero(r);
    } else {
      var b, rest := data[0], LittleEndian(data[1..]);
      WordIsPow2();
      FeedBitsDivides(r, b, 8);
      FeedDivides(FeedBits(r, b, 8), data[1..]);
      var whole := Xor(r, LittleEndian(data));
      assert Steps(whole, 8) == Xor(FeedBits(r, b, 8), rest) by {
        LowHigh(b, rest, 8);
        Associates(r, b, 256 * rest);
        StepsXor(Xor(r, b), 256 * rest, 8);
        StepsShift(rest, 8);
      }
      StepsCompose(whole, 8, 8 * |data[1..]|);
    }
  }

  // ---------------------------------------------------------------------
  // The table-driven implementation
  // ---------------------------------------------------------------------

  /** `_crc32c_table`: entry `v` is eight division steps from `v`. */
  method BuildTable() returns (table: seq<nat>)
    ensures |table| == 256
    ensures forall v :: 0 <= v < 256 ==> table[v] == Steps(v, 8)
  {
    hide Xor;
    table := [];
    for value := 0 to 256
      invariant |table| == value
      invariant forall v :: 0 <= v < value ==> table[v] == Steps(v, 8)
    {
      var crc: nat := value;
      for i := 0 to 8
        invariant crc < WORD
        invariant Steps(crc, 8 - i) == Steps(value, 8)
      {
        StepBounded(crc);
        crc := Xor(crc / 2, if crc % 2 == 1 then POLYNOMIAL else 0);
      }
      table := table + [crc % WORD];
    }
  }

  /** One table lookup consumes the same eight bits as the bit-serial register. */
  lemma TableStep(r: nat, b: byte)
    ensures Xor(Steps(Xor(r, b) % 256, 8), r / 256) == FeedBits(r, b, 8)
  {
    hide Xor, Step, FeedBits;
    var mixed := Xor(r, b);
    WordIsPow2();
    FeedBitsDivides(r, b, 8);
    LowHigh(mixed % 256, mixed / 256, 8);
    StepsXor(mixed % 256, 256 * (mixed / 256), 8);
    StepsShift(mixed / 256, 8);
    ShrXor(r, b, 8);
    ShrSmall(b, 8);
    Zero(Shr(r, 8));
    ShrByte(mixed);
    ShrByte(r);
  }

  lemma ShrByte(a: nat)
    ensures Shr(a, 8) == a / 256
  {
    assert Shr(a, 8) == Shr(a / 4, 6);
    assert Shr(a / 4, 6) == Shr(a / 16, 4);
    assert Shr(a / 16, 4) == Shr(a / 64, 2);
    assert Shr(a / 64, 2) == Shr(a / 256, 0);
  }

  lemma {:induction false} FeedSnoc(r: nat, data: seq<byte>, b: byte)
    ensures Feed(r, data + [b]) == FeedBits(Feed(r, data), b, 8)
    decreases data
  {
    if data == [] {
      assert (data + [b])[1..] == [];
    } else {
      assert (data + [b])[1..] == data[1..] + [b];
      FeedSnoc(FeedBits(r, data[0], 8), data[1..], b);
    }
  }

  /** `crc32c`: the table-driven loop computes the bit-serial checksum. */
  method Compute(data: seq<byte>) returns (result: nat)
    ensures result == Checksum(data)
  {
    hide Xor;
    var table := BuildTable();
    var crc := ALL_ONES;
    for i := 0 to |data|
      invariant crc == Feed(ALL_ONES, data[..i])
    {
      TableStep(crc, data[i]);
      FeedSnoc(ALL_ONES, data[..i], data[i]);
      assert data[..i + 1] == data[..i] + [data[i]];
      crc := Xor(table[Xor(crc, data[i]) % 256], crc / 256);
    }
    assert data[..|data|] == data;
    result := Xor(crc, ALL_ONES);
  }

  // ---------------------------------------------------------------------
  // What the checksum detects
  // ---------------------------------------------------------------------

  lemma FeedBitsBounded(r: nat, b: byte)
    requires r < WORD
    ensures FeedBits(r, b, 8) < WORD
  {
    hide Xor;
    WordIsPow2();
    Bounded(r, b, 32);
    FeedBitsDivides(r, b, 8);
    StepsBounded(Xor(r, b), 8);
  }

  lemma {:induction false} FeedBounded(r: nat, data: seq<byte>)
    requires r < WORD
    ensures Feed(r, data) < WORD
    decreases data
  {
    if data != [] {
      FeedBitsBounded(r, data[0]);
      FeedBounded(FeedBits(r, data[0], 8), data[1..]);
    }
  }

  lemma ChecksumBounded(data: seq<byte>)
    ensures Checksum(data) < WORD
  {
    hide Xor;
    FeedBounded(ALL_ONES, data);
    WordIsPow2();
    Bounded(Feed(ALL_ONES, data), ALL_ONES, 32);
  }

  lemma {:induction false} FeedConcat(r: nat, a: seq<byte>, b: seq<byte>)
    ensures Feed(r, a + b) == Feed(Feed(r, a), b)
    decreases a
  {
    if a == [] {
      assert a + b == b;
    } else {
      assert (a + b)[1..] == a[1..] + b;
      FeedConcat(FeedBits(r, a[0], 8), a[1..], b);
    }
  }

  /** Equal data never merges two different registers. */
  lemma {:induction false} FeedInjective(r: nat, r': nat, data: seq<byte>)
    requires r < WORD && r' < WORD
    requires Feed(r, data) == Feed(r', data)
    ensures r == r'
    decreases data
  {
    hide Xor;
    if data != [] {
      var b := data[0];
      FeedBitsBounded(r, b);
      FeedBitsBounded(r', b);
      FeedInjective(FeedBits(r, b, 8), FeedBits(r', b, 8), data[1..]);
      WordIsPow2();
      FeedBitsDivides(r, b, 8);
      FeedBitsDivides(r', b, 8);
      Bounded(r, b, 32);
      Bounded(r', b, 32);
      StepsInjective(Xor(r, b), Xor(r', b), 8);
      Cancels(r, r', b);
    }
  }

  lemma WindowValue(w: seq<byte>)
    requires |w| <= 4
    ensures LittleEndian(w) < WORD
  {
    assert Pow256(4) == WORD;
    assert |w| < 4 ==> Pow256(|w|) <= Pow256(3);
  }

  /** From one register, at most four bytes of data are recoverable from the next. */
  lemma WindowInjective(r: nat, w: seq<byte>, w': seq<byte>)
    requires r < WORD && |w| == |w'| <= 4
    requires Feed(r, w) == Feed(r, w')
    ensures w == w'
  {
    hide Xor;
    var v, v' := LittleEndian(w), LittleEndian(w');
    FeedDivides(r, w);
    FeedDivides(r, w');
    WindowValue(w);
    WindowValue(w');
    WordIsPow2();
    Bounded(r, v, 32);
    Bounded(r, v', 32);
    StepsInjective(Xor(r, v), Xor(r, v'), 8 * |w|);
    Commutes(r, v);
    Commutes(r, v');
    Cancels(v, v', r);
    ToLittleEndianInverse(w);
    ToLittleEndianInverse(w');
  }

  /** `mask_crc32c`: rotate right by 15 and add a constant, in 32 bits. The two
      halves of the rotation share no bit, so their disjunction is their sum. */
  function MaskCrc32c(crc: nat): (masked: nat)
    requires crc < WORD
    ensures masked < WORD
  {
    var rotated := crc / 0x8000 + (crc * 0x2_0000) % WORD;
    (rotated + CRC32C_MASK_DELTA) % WORD
  }

  lemma RotateSplit(crc: nat)
    requires crc < WORD
    ensures (crc * 0x2_0000) % WORD == (crc % 0x8000) * 0x2_0000
    ensures crc / 0x8000 < 0x2_0000
  {
    DivUnique(crc * 0x2_0000, WORD, crc / 0x8000, (crc % 0x8000) * 0x2_0000);
  }

  lemma MaskInjective(a: nat, b: nat)
    requires a < WORD && b < WORD && MaskCrc32c(a) == MaskCrc32c(b)
    ensures a == b
  {
    RotateSplit(a);
    RotateSplit(b);
    var ra := a / 0x8000 + (a % 0x8000) * 0x2_0000;
    var rb := b / 0x8000 + (b % 0x8000) * 0x2_0000;
    AddDeltaInjective(ra, rb);
    RotateInjective(a / 0x8000, a % 0x8000, b / 0x8000, b % 0x8000);
  }

  /** The inverse the log format gives: subtract the constant, rotate left by 15. */
  function Unmask(masked: nat): nat {
    var rotated := (masked + WORD - CRC32C_MASK_DELTA) % WORD;
    rotated / 0x2_0000 + (rotated % 0x2_0000) * 0x8000
  }

  lemma UnmaskInverts(crc: nat)
    requires crc < WORD
    ensures Unmask(MaskCrc32c(crc)) == crc
  {
    RotateSplit(crc);
    var high, low := crc / 0x8000, crc % 0x8000;
    DivUnique(high + low * 0x2_0000, 0x2_0000, low, high);
    AddDeltaBack(high + low * 0x2_0000);
  }

  lemma AddDeltaBack(x: nat)
    requires x < WORD
    ensures ((x + CRC32C_MASK_DELTA) % WORD + WORD - CRC32C_MASK_DELTA) % WORD == x
  {}

  lemma AddDeltaInjective(a: nat, b: nat)
    requires a < WORD && b < WORD
    requires (a + CRC32C_MASK_DELTA) % WORD == (b + CRC32C_MASK_DELTA) % WORD
    ensures a == b
  {}

  lemma RotateInjective(high: nat, low: nat, high': nat, low': nat)
    requires high < 0x2_0000 && high' < 0x2_0000
    requires high + low * 0x2_0000 == high' + low' * 0x2_0000
    ensures high == high' && low == low'
  {}

  /**
    Two strings that differ, and differ only inside a window of at most four
    consecutive bytes, never carry the same masked CRC-32C.
  */
  lemma BurstDetected(prefix: seq<byte>, w: seq<byte>, w': seq<byte>, suffix: seq<byte>)
    requires |w| == |w'| <= 4 && w != w'
    ensures Checksum(prefix + w + suffix) < WORD && Checksum(prefix + w' + suffix) < WORD
    ensures MaskCrc32c(Checksum(prefix + w + suffix)) != MaskCrc32c(Checksum(prefix + w' + suffix))
  {
    hide Xor;
    var a, b := prefix + w + suffix, prefix + w' + suffix;
    ChecksumBounded(a);
    ChecksumBounded(b);
    if MaskCrc32c(Checksum(a)) == MaskCrc32c(Checksum(b)) {
      MaskInjective(Checksum(a), Checksum(b));
      Cancels(Feed(ALL_ONES, a), Feed(ALL_ONES, b), ALL_ONES);
      var r := Feed(ALL_ONES, prefix);
      FeedBounded(ALL_ONES, prefix);
      FeedBounded(r, w);
      FeedBounded(r, w');
      FeedConcat(ALL_ONES, prefix + w, suffix);
      FeedConcat(ALL_ONES, prefix, w);
      FeedConcat(ALL_ONES, prefix + w', suffix);
      FeedConcat(ALL_ONES, prefix, w');
      FeedInjective(Feed(r, w), Feed(r, w'), suffix);
      WindowInjective(r, w, w');
      assert false;
    }
  }

  // ---------------------------------------------------------------------
  // No empty record has checksum zero
  // ---------------------------------------------------------------------

  lemma StepEven(r: nat)
    ensures Step(2 * r) == r
  {
    hide Xor;
    Zero(r);
  }

  lemma StepOdd(r: nat)
    ensures Step(2 * r + 1) == Xor(r, POLYNOMIAL)
  {
    hide Xor;
  }

  lemma StepsFrom(r: nat, n: nat)
    requires n > 0
    ensures Steps(r, n) == Steps(Step(r), n - 1)
  {
    hide Step;
  }

  lemma DivideThird()
    ensures Xor(0x1C8692F6, 0x82F63B78) == 0x9E70A98E
  {
    hide Xor;
    Zero(0);
    XorDigit(0x0, 0x0, 0x0, 0, 0, 0, 1, 1, 0, 0, 0);
    XorDigit(0x1, 0x8, 0x9, 1, 1, 0, 0, 0, 0, 1, 0);
    XorDigit(0x1C, 0x82, 0x9E, 1, 0, 0, 0, 1, 1, 1, 1);
    XorDigit(0x1C8, 0x82F, 0x9E7, 0, 1, 1, 0, 0, 1, 1, 0);
    XorDigit(0x1C86, 0x82F6, 0x9E70, 1, 0, 0, 1, 0, 0, 1, 1);
    XorDigit(0x1C869, 0x82F63, 0x9E70A, 0, 0, 1, 0, 1, 0, 1, 1);
    XorDigit(0x1C8692, 0x82F63B, 0x9E70A9, 1, 1, 1, 1, 0, 1, 1, 1);
    XorDigit(0x1C8692F, 0x82F63B7, 0x9E70A98, 0, 1, 1, 0, 1, 0, 0, 0);
  }

  lemma DivideFifth()
    ensures Xor(0x279C2A63, 0x82F63B78) == 0xA56A111B
  {
    hide Xor;
    Zero(0);
    XorDigit(0x0, 0x0, 0x0, 0, 0, 1, 0, 1, 0, 0, 0);
    XorDigit(0x2, 0x8, 0xA, 0, 1, 1, 1, 0, 0, 1, 0);
    XorDigit(0x27, 0x82, 0xA5, 1, 0, 0, 1, 1, 1, 1, 1);
    XorDigit(0x279, 0x82F, 0xA56, 1, 1, 0, 0, 0, 1, 1, 0);
    XorDigit(0x279C, 0x82F6, 0xA56A, 0, 0, 1, 0, 0, 0, 1, 1);
    XorDigit(0x279C2, 0x82F63, 0xA56A1, 1, 0, 1, 0, 1, 0, 1, 1);
    XorDigit(0x279C2A, 0x82F63B, 0xA56A11, 0, 1, 1, 0, 0, 1, 1, 1);
    XorDigit(0x279C2A6, 0x82F63B7, 0xA56A111, 0, 0, 1, 1, 1, 0, 0, 0);
  }

  lemma DivideSixth()
    ensures Xor(0x52B5088D, 0x82F63B78) == 0xD04333F5
  {
    hide Xor;
    Zero(0);
    XorDigit(0x0, 0x0, 0x0, 0, 1, 0, 1, 1, 0, 0, 0);
    XorDigit(0x5, 0x8, 0xD, 0, 0, 1, 0, 0, 0, 1, 0);
    XorDigit(0x52, 0x82, 0xD0, 1, 0, 1, 1, 1, 1, 1, 1);
    XorDigit(0x52B, 0x82F, 0xD04, 0, 1, 0, 1, 0, 1, 1, 0);
    XorDigit(0x52B5, 0x82F6, 0xD043, 0, 0, 0, 0, 0, 0, 1, 1);
    XorDigit(0x52B50, 0x82F63, 0xD0433, 1, 0, 0, 0, 1, 0, 1, 1);
    XorDigit(0x52B508, 0x82F63B, 0xD04333, 1, 0, 0, 0, 0, 1, 1, 1);
    XorDigit(0x52B5088, 0x82F63B7, 0xD04333F, 1, 1, 0, 1, 1, 0, 0, 0);
  }

  lemma DivideSeventh()
    ensures Xor(0x682199FA, 0x82F63B78) == 0xEAD7A282
  {
    hide Xor;
    Zero(0);
    XorDigit(0x0, 0x0, 0x0, 0, 1, 1, 0, 1, 0, 0, 0);
    XorDigit(0x6, 0x8, 0xE, 1, 0, 0, 0, 0, 0, 1, 0);
    XorDigit(0x68, 0x82, 0xEA, 0, 0, 1, 0, 1, 1, 1, 1);
    XorDigit(0x682, 0x82F, 0xEAD, 0, 0, 0, 1, 0, 1, 1, 0);
    XorDigit(0x6821, 0x82F6, 0xEAD7, 1, 0, 0, 1, 0, 0, 1, 1);
    XorDigit(0x68219, 0x82F63, 0xEAD7A, 1, 0, 0, 1, 1, 0, 1, 1);
    XorDigit(0x682199, 0x82F63B, 0xEAD7A2, 1, 1, 1, 1, 0, 1, 1, 1);
    XorDigit(0x682199F, 0x82F63B7, 0xEAD7A28, 1, 0, 1, 0, 1, 0, 0, 0);
  }

  /** The one register from which eight steps lead to the complement of a checksum that masks
      to zero. */
  const ZERO_START: nat := 0xE434_97B4
  const ZERO_CRC: nat := 0x8A94_2EBE

  lemma ZeroStartSteps()
    ensures Steps(ZERO_START, 8) == ALL_ONES - ZERO_CRC
  {
    hide Xor, Step, Steps;
    StepEven(0x721A_4BDA);
    StepEven(0x390D_25ED);
    StepOdd(0x1C86_92F6);
    DivideThird();
    StepEven(0x4F38_54C7);
    StepOdd(0x279C_2A63);
    DivideFifth();
    StepOdd(0x52B5_088D);
    DivideSixth();
    StepOdd(0x6821_99FA);
    DivideSeventh();
    StepEven(0x756B_D141);
    StepsFrom(0xE434_97B4, 8);
    StepsFrom(0x721A_4BDA, 7);
    StepsFrom(0x390D_25ED, 6);
    StepsFrom(0x9E70_A98E, 5);
    StepsFrom(0x4F38_54C7, 4);
    StepsFrom(0xA56A_111B, 3);
    StepsFrom(0xD043_33F5, 2);
    StepsFrom(0xEAD7_A282, 1);
    StepsNone(0x756B_D141);
  }

  lemma StepsNone(r: nat)
    ensures Steps(r, 0) == r
  {}

  lemma ZeroMask()
    ensures MaskCrc32c(ZERO_CRC) == 0
  {
    RotateSplit(ZERO_CRC);
    assert ZERO_CRC / 0x8000 == 0x1_1528 && ZERO_CRC % 0x8000 == 0x2EBE;
  }

  /** The checksum of a single byte never masks to zero. */
  lemma OneByteNotZero(b: byte)
    ensures Checksum([b]) < WORD && MaskCrc32c(Checksum([b])) != 0
  {
    hide Xor, Steps, MaskCrc32c, Feed;
    ChecksumBounded([b]);
    var start := Xor(ALL_ONES, b);
    WordIsPow2();
    Complement(b, 32);
    FeedBounded(ALL_ONES, [b]);
    FeedDivides(ALL_ONES, [b]);
    SingleByte(b);
    var end := Feed(ALL_ONES, [b]);
    Complement(end, 32);
    Commutes(end, ALL_ONES);
    ZeroMask();
    ZeroStartSteps();
    if MaskCrc32c(Checksum([b])) == 0 {
      MaskInjective(Checksum([b]), ZERO_CRC);
      StepsInjective(start, ZERO_START, 8);
    }
  }

  lemma SingleByte(b: byte)
    ensures LittleEndian([b]) == b
  {
    assert LittleEndian([b]) == b + 256 * LittleEndian([b][1..]);
  }
}
