/**
  A reader of JSON texts, written from the grammar of RFC 8259 (sections 2 to 7) and not from the
  printer. It reads what `JSON.stringify` prints back as the value printed, and no text it reads
  as that value is shorter.
*/
module JsonReader {
  import opened Bytes
  import opened JsonText
  import opened CanonicalJson
  import opened CanonicalJsonProofs

  /** A value read from the front of a text, and what follows it. */
  datatype Parsed<+T> = Parsed(value: T, rest: Text) | Wrong

  // ---------------------------------------------------------------------
  // White space and literal names (sections 2 and 3)
  // ---------------------------------------------------------------------

  predicate IsSpace(u: Unit) { u == 0x20 || u == 0x09 || u == 0x0A || u == 0x0D }

  function SkipSpace(t: Text): (r: Text)
    ensures |r| <= |t| && (r != [] ==> !IsSpace(r[0]))
  {
    if t != [] && IsSpace(t[0]) then SkipSpace(t[1..]) else t
  }

  /** The code units of an ASCII string. */
  predicate Spells(t: Text, s: string) {
    |t| == |s| && forall i :: 0 <= i < |s| ==> t[i] == s[i] as int
  }

  function Literal(t: Text, s: string, value: Json): (p: Parsed<Json>)
    requires s != ""
    ensures p.Parsed? ==> |p.rest| < |t|
  {
    if |s| <= |t| && Spells(t[..|s|], s) then Parsed(value, t[|s|..]) else Wrong
  }

  // ---------------------------------------------------------------------
  // Numbers (section 6), without fraction or exponent
  // ---------------------------------------------------------------------

  /** How many digits a text starts with. */
  function DigitRun(t: Text): (n: nat)
    ensures n <= |t| && (forall i :: 0 <= i < n ==> IsDigit(t[i])) && (n < |t| ==> !IsDigit(t[n]))
  {
    if t == [] || !IsDigit(t[0]) then 0 else 1 + DigitRun(t[1..])
  }

  predicate GoesOn(t: Text) { t != [] && (t[0] == '.' as int || t[0] == 'e' as int || t[0] == 'E' as int) }

  function ReadNatural(t: Text): (p: Parsed<nat>)
    ensures p.Parsed? ==> |p.rest| < |t|
  {
    var n := DigitRun(t);
    if n == 0 || (t[0] == '0' as int && n > 1) || GoesOn(t[n..]) then Wrong
    else Parsed(DigitValue(t[..n]), t[n..])
  }

  function ReadNumber(t: Text): (p: Parsed<Json>)
    requires t != []
    ensures p.Parsed? ==> |p.rest| < |t|
  {
    var minus := t[0] == '-' as int;
    match ReadNatural(if minus then t[1..] else t)
    case Wrong => Wrong
    case Parsed(n, rest) =>
      var value: int := n;
      Parsed(Num(if minus then -value else value), rest)
  }

  // ---------------------------------------------------------------------
  // Strings (section 7)
  // ---------------------------------------------------------------------

  function HexValue(u: Unit): Option<nat> {
    if '0' as int <= u <= '9' as int then Some(u - '0' as int)
    else if 'a' as int <= u <= 'f' as int then Some(u - 'a' as int + 10)
    else if 'A' as int <= u <= 'F' as int then Some(u - 'A' as int + 10)
    else None
  }

  lemma HexValueSmall(u: Unit)
    ensures HexValue(u).Some? ==> HexValue(u).value < 16
  {}

  function FourHex(t: Text): (v: Option<Unit>)
    requires |t| == 4
  {
    HexValueSmall(t[0]);
    HexValueSmall(t[1]);
    HexValueSmall(t[2]);
    HexValueSmall(t[3]);
    var a, b, c, d := HexValue(t[0]), HexValue(t[1]), HexValue(t[2]), HexValue(t[3]);
    if a.None? || b.None? || c.None? || d.None? then None
    else Some(4096 * a.value + 256 * b.value + 16 * c.value + d.value)
  }

  /** What a backslash and this letter stand for. */
  function Escaped(u: Unit): Option<Unit> {
    if u == '\"' as int || u == '\\' as int || u == '/' as int then Some(u)
    else if u == 'b' as int then Some(0x08)
    else if u == 'f' as int then Some(0x0C)
    else if u == 'n' as int then Some(0x0A)
    else if u == 'r' as int then Some(0x0D)
    else if u == 't' as int then Some(0x09)
    else None
  }

  /** One character: an escape, a surrogate pair, or a unit that needs no escape. */
  function ReadCharacter(t: Text): (p: Parsed<Text>)
    requires t != []
    ensures p.Parsed? ==> |p.rest| < |t| && 0 < |p.value| <= 2
  {
    if t[0] == '\\' as int then
      if |t| < 2 then Wrong
      else if t[1] == 'u' as int then
        if |t| < 6 || FourHex(t[2..6]).None? then Wrong else Parsed([FourHex(t[2..6]).value], t[6..])
      else if Escaped(t[1]).None? then Wrong
      else Parsed([Escaped(t[1]).value], t[2..])
    else if t[0] < 0x20 || IsLow(t[0]) then Wrong
    else if IsHigh(t[0]) then if |t| > 1 && IsLow(t[1]) then Parsed(t[..2], t[2..]) else Wrong
    else Parsed([t[0]], t[1..])
  }

  /** The rest of a string, after its opening quotation mark. */
  function ReadString(t: Text): (p: Parsed<Text>)
    ensures p.Parsed? ==> |p.rest| < |t|
  {
    if t == [] then Wrong
    else if t[0] == '\"' as int then Parsed([], t[1..])
    else
      var c := ReadCharacter(t);
      if c.Wrong? then Wrong
      else
        var more := ReadString(c.rest);
        if more.Wrong? then Wrong else Parsed(c.value + more.value, more.rest)
  }

  // ---------------------------------------------------------------------
  // Values, arrays and objects (sections 3 to 5)
  // ---------------------------------------------------------------------

  function ReadValue(t: Text): (p: Parsed<Json>)
    ensures p.Parsed? ==> |p.rest| < |t|
    decreases |t|, 0
  {
    var s := SkipSpace(t);
    if s == [] then Wrong
    else if s[0] == '\"' as int then
      var p := ReadString(s[1..]);
      if p.Wrong? then Wrong else Parsed(Str(p.value), p.rest)
    else if s[0] == '[' as int then
      var p := ReadItems(s[1..], true);
      if p.Wrong? then Wrong else Parsed(Arr(p.value), p.rest)
    else if s[0] == '{' as int then
      var p := ReadMembers(s[1..], true);
      if p.Wrong? then Wrong else Parsed(Obj(p.value, true), p.rest)
    else if s[0] == 'n' as int then Literal(s, "null", Null)
    else if s[0] == 't' as int then Literal(s, "true", Bool(true))
    else if s[0] == 'f' as int then Literal(s, "false", Bool(false))
    else ReadNumber(s)
  }

  /** The items from here on and the closing bracket; a comma comes before each but the first. */
  function ReadItems(t: Text, first: bool): (p: Parsed<seq<Json>>)
    ensures p.Parsed? ==> |p.rest| < |t|
    decreases |t|, 1
  {
    var s := SkipSpace(t);
    if s == [] then Wrong
    else if s[0] == ']' as int then Parsed([], s[1..])
    else if !first && s[0] != ',' as int then Wrong
    else
      var item := ReadValue(if first then s else s[1..]);
      if item.Wrong? then Wrong
      else
        var more := ReadItems(item.rest, false);
        if more.Wrong? then Wrong else Parsed([item.value] + more.value, more.rest)
  }

  /** A name, a colon and a value. */
  function ReadMember(t: Text): (p: Parsed<Entry>)
    ensures p.Parsed? ==> |p.rest| < |t|
    decreases |t|, 1
  {
    var s := SkipSpace(t);
    if s == [] || s[0] != '\"' as int then Wrong
    else
      var key := ReadString(s[1..]);
      if key.Wrong? then Wrong
      else
        var c := SkipSpace(key.rest);
        if c == [] || c[0] != ':' as int then Wrong
        else
          var v := ReadValue(c[1..]);
          if v.Wrong? then Wrong else Parsed(Entry(key.value, v.value), v.rest)
  }

  function ReadMembers(t: Text, first: bool): (p: Parsed<seq<Entry>>)
    ensures p.Parsed? ==> |p.rest| < |t|
    decreases |t|, 2
  {
    var s := SkipSpace(t);
    if s == [] then Wrong
    else if s[0] == '}' as int then Parsed([], s[1..])
    else if !first && s[0] != ',' as int then Wrong
    else
      var member := ReadMember(if first then s else s[1..]);
      if member.Wrong? then Wrong
      else
        var more := ReadMembers(member.rest, false);
        if more.Wrong? then Wrong else Parsed([member.value] + more.value, more.rest)
  }

  /** A whole JSON text. */
  function ReadText(t: Text): Option<Json> {
    var p := ReadValue(t);
    if p.Parsed? && SkipSpace(p.rest) == [] then Some(p.value) else None
  }

  // ---------------------------------------------------------------------
  // What is printed is read back
  // ---------------------------------------------------------------------

  lemma NoSpace(t: Text)
    requires t != [] && !IsSpace(t[0])
    ensures SkipSpace(t) == t
  {}

  lemma LiteralBack(t: Text, s: string, value: Json, x: Text)
    requires s != "" && Spells(t, s)
    ensures Literal(t + x, s, value) == Parsed(value, x)
  {
    assert (t + x)[..|s|] == t && (t + x)[|s|..] == x;
  }

  lemma RunOf(digits: Text, x: Text)
    requires (forall i :: 0 <= i < |digits| ==> IsDigit(digits[i])) && NoDigit(x)
    ensures DigitRun(digits + x) == |digits|
  {
    assert forall i :: 0 <= i < |digits| ==> (digits + x)[i] == digits[i];
    assert x != [] ==> (digits + x)[|digits|] == x[0];
  }

  lemma {:induction false} DigitsLead(n: nat)
    ensures Digits(n)[0] == 48 ==> |Digits(n)| == 1
    ensures n > 0 ==> Digits(n)[0] != 48
  {
    if n >= 10 {
      DigitsLead(n / 10);
    }
  }

  /** What may follow a number so that it does not go on. */
  lemma NaturalBack(n: nat, x: Text)
    requires Delimited(x)
    ensures ReadNatural(Digits(n) + x) == Parsed(n, x)
  {
    hide Digits;
    var t := Digits(n) + x;
    RunOf(Digits(n), x);
    DigitsLead(n);
    DigitsValue(n);
    assert t[0] == Digits(n)[0];
    assert t[..|Digits(n)|] == Digits(n) && t[|Digits(n)|..] == x;
  }

  lemma NumberBack(n: int, x: Text)
    requires Delimited(x)
    ensures ReadNumber(Decimal(n) + x) == Parsed(Num(n), x)
  {
    hide Digits, ReadNatural;
    DecimalFirst(n);
    assert (Decimal(n) + x)[0] == Decimal(n)[0];
    if n < 0 {
      DropMinus(Digits(-n), x);
      NaturalBack(-n, x);
    } else {
      NaturalBack(n, x);
    }
  }

  lemma HexBack(n: nat)
    requires n < 16
    ensures HexValue(HexDigit(n)) == Some(n)
  {}

  lemma FourHexBack(u: Unit)
    ensures FourHex(Hex4(u)) == Some(u)
  {
    hide HexValue, HexDigit;
    HexBack(u / 4096);
    HexBack(u / 256 % 16);
    HexBack(u / 16 % 16);
    HexBack(u % 16);
    HexSum(u);
  }

  lemma ShortBack(u: Unit)
    ensures Short(u) != 0 ==> Escaped(Short(u)) == Some(u) && Short(u) != 117
  {}

  lemma PieceBack(s: Text, x: Text)
    requires s != []
    ensures ReadCharacter(Piece(s) + x) == Parsed(s[..Taken(s)], x)
  {
    hide FourHex, Hex4, Escaped, Short;
    var p := Piece(s);
    var t := p + x;
    assert t[0] == p[0] && t[|p|..] == x;
    assert |p| > 1 ==> t[1] == p[1];
    if StartsPair(s) {
      assert t[..2] == s[..2];
    } else if Short(s[0]) != 0 {
      ShortBack(s[0]);
      assert s[..1] == [s[0]];
    } else if NeedsHex(s[0]) {
      assert t[2..6] == Hex4(s[0]);
      FourHexBack(s[0]);
      assert s[..1] == [s[0]];
    } else {
      PlainUnit(s[0]);
      assert s[..1] == [s[0]];
    }
  }

  lemma PlainUnit(u: Unit)
    requires Short(u) == 0 && !NeedsHex(u)
    ensures u >= 0x20 && !IsHigh(u) && !IsLow(u) && u != BACKSLASH && u != QUOTE
  {}

  lemma {:induction false} StringBack(s: Text, x: Text)
    ensures ReadString(Escape(s) + [QUOTE] + x) == Parsed(s, x)
    decreases |s|
  {
    hide Piece, Taken, ReadCharacter;
    var t := Escape(s) + [QUOTE] + x;
    if s == [] {
      assert t[0] == QUOTE && t[1..] == x;
    } else {
      var s' := s[Taken(s)..];
      var x' := Escape(s') + [QUOTE] + x;
      assert t == Piece(s) + x';
      assert t[0] == Piece(s)[0];
      PieceFirst(s);
      PieceBack(s, x');
      StringBack(s', x);
      assert s == s[..Taken(s)] + s';
    }
  }

  /** Every object's prototype is the ordinary one; JSON does not say otherwise. */
  function Plain(j: Json): Json
    decreases j
  {
    match j
    case Arr(items) => Arr(PlainItems(items))
    case Obj(es, _) => Obj(PlainEntries(es), true)
    case _ => j
  }

  function PlainItems(items: seq<Json>): seq<Json>
    decreases items
  {
    if items == [] then [] else [Plain(items[0])] + PlainItems(items[1..])
  }

  function PlainEntries(es: seq<Entry>): seq<Entry>
    decreases es
  {
    if es == [] then [] else [Entry(es[0].key, Plain(es[0].value))] + PlainEntries(es[1..])
  }

  lemma {:induction false} ValueBack(j: Json, x: Text)
    requires Printable(j) && Delimited(x)
    ensures ReadValue(Print(j) + x) == Parsed(Plain(j), x)
    decreases j, 1
  {
    hide Decimal, Escape, ReadString, ReadItems, ReadMembers, ReadNumber, Literal;
    var t := Print(j) + x;
    PrintFirst(j);
    assert t[0] == Print(j)[0];
    NoSpace(t);
    match j
    case Null => LiteralBack(Print(j), "null", Null, x);
    case Bool(b) =>
      if b {
        LiteralBack(Print(j), "true", Bool(true), x);
      } else {
        LiteralBack(Print(j), "false", Bool(false), x);
      }
    case Num(n) => NumberBack(n, x);
    case Str(s) =>
      assert t[1..] == Escape(s) + [QUOTE] + x;
      StringBack(s, x);
    case Arr(items) =>
      assert t[1..] == PrintItems(items, true) + x;
      ItemsBack(items, true, x);
    case Obj(es, _) =>
      assert t[1..] == PrintEntries(es, true) + x;
      MembersBack(es, true, x);
  }

  lemma {:induction false} ItemsBack(items: seq<Json>, first: bool, x: Text)
    requires forall i :: 0 <= i < |items| ==> Printable(items[i])
    ensures ReadItems(PrintItems(items, first) + x, first) == Parsed(PlainItems(items), x)
    decreases items, 0
  {
    hide Print, Printable, ReadValue, Plain;
    var t := PrintItems(items, first) + x;
    if items == [] {
      NoSpace(t);
      assert t[0] == CLOSE_ARRAY && t[1..] == x;
    } else {
      ItemsRest(items, first, x);
      var x' := PrintItems(items[1..], false) + x;
      PrintFirst(items[0]);
      StartsWell(items[0], x');
      if first {
        assert t == Print(items[0]) + x';
      } else {
        assert t[0] == COMMA && t[1..] == Print(items[0]) + x';
      }
      NoSpace(t);
      ValueBack(items[0], x');
      ItemsBack(items[1..], false, x);
    }
  }

  lemma StartsWell(j: Json, x: Text)
    requires Printable(j)
    ensures var t := Print(j) + x;
            t != [] && !IsSpace(t[0]) && t[0] != CLOSE_ARRAY && t[0] != CLOSE_OBJECT && t[0] != COMMA
  {
    PrintFirst(j);
    hide Print;
    assert (Print(j) + x)[0] == Print(j)[0];
  }

  lemma MemberBack(e: Entry, x: Text)
    requires Printable(e.value) && Delimited(x)
    requires ReadValue(Print(e.value) + x) == Parsed(Plain(e.value), x)
    ensures ReadMember(Quoted(e.key) + ([COLON] + (Print(e.value) + x))) == Parsed(Entry(e.key, Plain(e.value)), x)
  {
    hide Print, Printable, ReadValue, Plain, Escape, ReadString;
    var y := [COLON] + (Print(e.value) + x);
    var t := Quoted(e.key) + y;
    assert t[0] == QUOTE && t[1..] == Escape(e.key) + [QUOTE] + y;
    NoSpace(t);
    StringBack(e.key, y);
    assert y[0] == COLON && y[1..] == Print(e.value) + x;
    NoSpace(y);
  }

  lemma {:induction false} MembersBack(es: seq<Entry>, first: bool, x: Text)
    requires forall i :: 0 <= i < |es| ==> Printable(es[i].value)
    ensures ReadMembers(PrintEntries(es, first) + x, first) == Parsed(PlainEntries(es), x)
    decreases es, 0
  {
    hide Print, Printable, ReadValue, Plain, ReadMember, Escape;
    var t := PrintEntries(es, first) + x;
    if es == [] {
      NoSpace(t);
      assert t[0] == CLOSE_OBJECT && t[1..] == x;
    } else {
      EntriesRest(es, first, x);
      var x' := PrintEntries(es[1..], false) + x;
      var m := Quoted(es[0].key) + ([COLON] + (Print(es[0].value) + x'));
      assert m[0] == QUOTE;
      if first {
        assert t == m;
      } else {
        assert t[0] == COMMA && t[1..] == m;
      }
      NoSpace(t);
      ValueBack(es[0].value, x');
      MemberBack(es[0], x');
      MembersBack(es[1..], false, x);
    }
  }

  /** Whatever can be printed is read back, as a value with ordinary prototypes. */
  lemma ReadInvertsPrint(j: Json)
    requires Printable(j)
    ensures ReadText(Print(j)) == Some(Plain(j))
  {
    hide Print, Printable, ReadValue, Plain;
    assert Print(j) + [] == Print(j);
    ValueBack(j, []);
  }

  /** That is the value itself, prototypes aside. */
  lemma {:induction false} PlainAlike(j: Json)
    ensures Alike(j, Plain(j))
    decreases j, 1
  {
    match j
    case Arr(items) => PlainItemsAlike(items);
    case Obj(es, _) => PlainEntriesAlike(es);
    case _ =>
  }

  lemma {:induction false} PlainItemsAlike(items: seq<Json>)
    ensures |PlainItems(items)| == |items| && forall i :: 0 <= i < |items| ==> Alike(items[i], PlainItems(items)[i])
    decreases items, 0
  {
    hide Alike, Plain;
    if items != [] {
      PlainAlike(items[0]);
      PlainItemsAlike(items[1..]);
    }
  }

  lemma {:induction false} PlainEntriesAlike(es: seq<Entry>)
    ensures |PlainEntries(es)| == |es|
    ensures forall i :: 0 <= i < |es| ==>
              es[i].key == PlainEntries(es)[i].key && Alike(es[i].value, PlainEntries(es)[i].value)
    decreases es, 0
  {
    hide Alike, Plain;
    if es != [] {
      PlainAlike(es[0].value);
      PlainEntriesAlike(es[1..]);
    }
  }

  // ---------------------------------------------------------------------
  // No text that reads as a value is shorter than the printed one
  // ---------------------------------------------------------------------

  lemma EscapeOne(u: Unit, s: Text)
    ensures |Escape([u] + s)| <= |EscapeUnit(u)| + |Escape(s)|
  {
    hide EscapeUnit;
    var t := [u] + s;
    if StartsPair(t) {
      assert t[2..] == s[1..];
      assert Escape(s) == EscapeUnit(s[0]) + Escape(s[1..]);
    } else {
      assert t[1..] == s;
    }
  }

  lemma EscapePair(h: Unit, l: Unit, s: Text)
    requires IsHigh(h) && IsLow(l)
    ensures |Escape([h, l] + s)| == 2 + |Escape(s)|
  {
    var t := [h, l] + s;
    assert StartsPair(t) && t[2..] == s && Escape(t) == t[..2] + Escape(t[2..]);
  }

  lemma EscapedShort(u: Unit)
    ensures |EscapeUnit(u)| <= 6
    ensures Short(u) != 0 || (u >= 0x20 && !IsHigh(u) && !IsLow(u)) ==> |EscapeUnit(u)| <= 2
    ensures u >= 0x20 && !IsHigh(u) && !IsLow(u) && u != QUOTE && u != BACKSLASH ==> |EscapeUnit(u)| == 1
  {}

  lemma EscapedHasShort(u: Unit)
    ensures Escaped(u).Some? ==> Short(Escaped(u).value) != 0 || Escaped(u).value == 0x2F
  {}

  lemma CharacterLong(t: Text, s: Text)
    requires t != [] && t[0] != QUOTE && ReadCharacter(t).Parsed?
    ensures var p := ReadCharacter(t); |Escape(p.value + s)| + |p.rest| <= |t| + |Escape(s)|
  {
    hide Escape, EscapeUnit, Escaped, FourHex, Short;
    var p := ReadCharacter(t);
    EscapeOne(p.value[0], s);
    EscapedShort(p.value[0]);
    if t[0] == BACKSLASH {
      EscapedHasShort(t[1]);
    } else if IsHigh(t[0]) {
      assert t[..2] == [t[0], t[1]];
      EscapePair(t[0], t[1], s);
    }
  }

  lemma {:induction false} StringLong(t: Text)
    requires ReadString(t).Parsed?
    ensures |Escape(ReadString(t).value)| + 1 + |ReadString(t).rest| <= |t|
    decreases |t|
  {
    hide ReadCharacter, Piece, Taken;
    if t[0] != QUOTE {
      var c := ReadCharacter(t);
      StringLong(c.rest);
      CharacterLong(t, ReadString(c.rest).value);
    }
  }

  lemma {:induction false} DigitsBack(d: Text)
    requires d != [] && (forall i :: 0 <= i < |d| ==> IsDigit(d[i])) && (d[0] == 48 ==> |d| == 1)
    ensures Digits(DigitValue(d)) == d
    decreases d
  {
    var n := |d| - 1;
    var front := d[..n];
    if n == 0 {
      assert DigitValue(front) == 0;
    } else {
      DigitsBack(front);
      assert DigitValue(front) > 0;
      assert DigitValue(d) / 10 == DigitValue(front);
    }
  }

  lemma NumberLong(t: Text)
    requires t != [] && ReadNumber(t).Parsed?
    ensures ReadNumber(t).value.Num? && |Decimal(ReadNumber(t).value.n)| + |ReadNumber(t).rest| <= |t|
  {
    hide Digits, DigitRun, DigitValue;
    var s := if t[0] == MINUS then t[1..] else t;
    var n := DigitRun(s);
    DigitsBack(s[..n]);
  }

  lemma {:induction false} ValueLong(t: Text)
    requires ReadValue(t).Parsed?
    ensures var p := ReadValue(t); Printable(p.value) && |Print(p.value)| + |p.rest| <= |t|
    decreases |t|, 0
  {
    hide Decimal, Escape, ReadString, ReadItems, ReadMembers, ReadNumber, SkipSpace;
    var s := SkipSpace(t);
    if s[0] == QUOTE {
      StringLong(s[1..]);
    } else if s[0] == OPEN_ARRAY {
      ItemsLong(s[1..], true);
    } else if s[0] == OPEN_OBJECT {
      MembersLong(s[1..], true);
    } else if !(s[0] == 'n' as int || s[0] == 't' as int || s[0] == 'f' as int) {
      NumberLong(s);
    }
  }

  lemma {:induction false} ItemsLong(t: Text, first: bool)
    requires ReadItems(t, first).Parsed?
    ensures var p := ReadItems(t, first);
            && (forall i :: 0 <= i < |p.value| ==> Printable(p.value[i]))
            && |PrintItems(p.value, first)| + |p.rest| <= |t|
    decreases |t|, 1
  {
    hide Print, Printable, ReadValue, SkipSpace;
    var s := SkipSpace(t);
    if s[0] != CLOSE_ARRAY {
      var from := if first then s else s[1..];
      ValueLong(from);
      var item := ReadValue(from);
      ItemsLong(item.rest, false);
      var more := ReadItems(item.rest, false);
      assert ([item.value] + more.value)[1..] == more.value;
    }
  }

  lemma {:induction false} MemberLong(t: Text)
    requires ReadMember(t).Parsed?
    ensures var p := ReadMember(t);
            Printable(p.value.value) && |Quoted(p.value.key)| + 1 + |Print(p.value.value)| + |p.rest| <= |t|
    decreases |t|, 1
  {
    hide Print, Printable, ReadValue, SkipSpace, ReadString, Escape;
    var s := SkipSpace(t);
    StringLong(s[1..]);
    ValueLong(SkipSpace(ReadString(s[1..]).rest)[1..]);
  }

  lemma {:induction false} MembersLong(t: Text, first: bool)
    requires ReadMembers(t, first).Parsed?
    ensures var p := ReadMembers(t, first);
            && (forall i :: 0 <= i < |p.value| ==> Printable(p.value[i].value))
            && |PrintEntries(p.value, first)| + |p.rest| <= |t|
    decreases |t|, 2
  {
    hide Print, Printable, ReadMember, SkipSpace, Quoted;
    var s := SkipSpace(t);
    if s[0] != CLOSE_OBJECT {
      var from := if first then s else s[1..];
      MemberLong(from);
      var member := ReadMember(from);
      MembersLong(member.rest, false);
      var more := ReadMembers(member.rest, false);
      assert ([member.value] + more.value)[1..] == more.value;
    }
  }

  /** A text that reads as a value is at least as long as the one printed for it: nothing printed
      is white space or an escape that could be left out. */
  lemma PrintIsShortest(t: Text)
    requires ReadText(t).Some?
    ensures Printable(ReadText(t).value) && |Print(ReadText(t).value)| <= |t|
  {
    hide Print, Printable, ReadValue;
    ValueLong(t);
  }

  /** Escapes are written in lower-case hexadecimal. */
  lemma HexIsLower(n: nat)
    requires n < 16
    ensures HexDigit(n) == "0123456789abcdef"[n] as int
  {}
}
