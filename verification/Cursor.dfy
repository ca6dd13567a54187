/** Cursor tokens: the decimal text of a sequence number in unpadded base64url (section 5 of RFC 4648). */
module Cursor {
  import opened Values
  import opened Decimals
  import opened Bytes

  // ---------------------------------------------------------------- base64url

  function Symbol(v: nat): char
    requires v < 64
  {
    if v < 26 then (v + 65) as char else if v < 52 then (v + 71) as char else if v < 62 then (v - 4) as char
    else if v == 62 then '-' else '_'
  }

  predicate IsSymbol(ch: char) { 'A' <= ch <= 'Z' || 'a' <= ch <= 'z' || '0' <= ch <= '9' || ch == '-' || ch == '_' }

  function SymbolVal(ch: char): (v: nat)
    requires IsSymbol(ch)
    ensures v < 64
  {
    if 'A' <= ch <= 'Z' then ch as int - 65 else if 'a' <= ch <= 'z' then ch as int - 71
    else if '0' <= ch <= '9' then ch as int + 4 else if ch == '-' then 62 else 63
  }

  lemma SymbolRoundTrip(v: nat)
    requires v < 64
    ensures IsSymbol(Symbol(v)) && SymbolVal(Symbol(v)) == v
  {
  }

  predicate AllSymbols(s: string) { forall i :: 0 <= i < |s| ==> IsSymbol(s[i]) }

  function Pair(x: Byte): (s: string)
    ensures |s| == 2 && AllSymbols(s)
  {
    SymbolRoundTrip(x / 4); SymbolRoundTrip(x % 4 * 16);
    [Symbol(x / 4), Symbol(x % 4 * 16)]
  }

  function Triple(x: Byte, y: Byte): (s: string)
    ensures |s| == 3 && AllSymbols(s)
  {
    SymbolRoundTrip(x / 4); SymbolRoundTrip(x % 4 * 16 + y / 16); SymbolRoundTrip(y % 16 * 4);
    [Symbol(x / 4), Symbol(x % 4 * 16 + y / 16), Symbol(y % 16 * 4)]
  }

  function Quad(x: Byte, y: Byte, z: Byte): (s: string)
    ensures |s| == 4 && AllSymbols(s)
  {
    SymbolRoundTrip(x / 4); SymbolRoundTrip(x % 4 * 16 + y / 16); SymbolRoundTrip(y % 16 * 4 + z / 64);
    SymbolRoundTrip(z % 64);
    [Symbol(x / 4), Symbol(x % 4 * 16 + y / 16), Symbol(y % 16 * 4 + z / 64), Symbol(z % 64)]
  }

  /** urlsafe_b64encode, with padding. */
  function Base64(bs: seq<Byte>): string {
    if bs == [] then ""
    else if |bs| == 1 then Pair(bs[0]) + "=="
    else if |bs| == 2 then Triple(bs[0], bs[1]) + "="
    else Quad(bs[0], bs[1], bs[2]) + Base64(bs[3..])
  }

  type Sextet = v: nat | v < 64

  function Octet1(a: Sextet, b: Sextet): Byte { a * 4 + b / 16 }

  function Octet2(b: Sextet, c: Sextet): Byte { b % 16 * 16 + c / 4 }

  function Octet3(c: Sextet, d: Sextet): Byte { c % 4 * 64 + d }

  predicate Ends(s: string, at: nat) { |s| == 4 && at < 4 && forall i :: at <= i < 4 ==> s[i] == '=' }

  /** urlsafe_b64decode of symbols followed by padding; the spare bits of a short last group are ignored. */
  function UnBase64(s: string): Option<seq<Byte>> {
    if s == "" then Some([])
    else if |s| < 4 || !IsSymbol(s[0]) || !IsSymbol(s[1]) then None
    else
      var a, b := SymbolVal(s[0]), SymbolVal(s[1]);
      if Ends(s, 2) then Some([Octet1(a, b)])
      else if !IsSymbol(s[2]) then None
      else
        var c := SymbolVal(s[2]);
        if Ends(s, 3) then Some([Octet1(a, b), Octet2(b, c)])
        else if !IsSymbol(s[3]) then None
        else
          match UnBase64(s[4..])
          case None => None
          case Some(rest) => Some([Octet1(a, b), Octet2(b, c), Octet3(c, SymbolVal(s[3]))] + rest)
  }

  lemma GroupOfOne(x: Byte)
    ensures UnBase64(Base64([x])) == Some([x])
  {
    hide Symbol, SymbolVal, IsSymbol, Octet1;
    SymbolRoundTrip(x / 4);
    SymbolRoundTrip(x % 4 * 16);
    GroupOfThree(x, 0, 0);
  }

  lemma ShortGroup(p: Sextet, q: Sextet, r: Sextet)
    ensures UnBase64([Symbol(p), Symbol(q), Symbol(r), '=']) == Some([Octet1(p, q), Octet2(q, r)])
  {
    hide Symbol, SymbolVal, IsSymbol, Octet1, Octet2;
    SymbolRoundTrip(p);
    SymbolRoundTrip(q);
    SymbolRoundTrip(r);
    PadIsNoSymbol();
    var s := [Symbol(p), Symbol(q), Symbol(r), '='];
    assert s[2] == Symbol(r) && !Ends(s, 2) && Ends(s, 3);
  }

  lemma GroupOfTwo(x: Byte, y: Byte)
    ensures UnBase64(Base64([x, y])) == Some([x, y])
  {
    hide Symbol, UnBase64, Octet1, Octet2;
    GroupOfThree(x, y, 0);
    ShortGroup(x / 4, x % 4 * 16 + y / 16, y % 16 * 4);
    assert Base64([x, y]) == [Symbol(x / 4), Symbol(x % 4 * 16 + y / 16), Symbol(y % 16 * 4), '='];
  }

  lemma GroupOfThree(x: Byte, y: Byte, z: Byte)
    ensures var a, b, c, d := x / 4, x % 4 * 16 + y / 16, y % 16 * 4 + z / 64, z % 64;
            Octet1(a, b) == x && Octet2(b, c) == y && Octet3(c, d) == z
  {
  }

  lemma FullGroup(p: Sextet, q: Sextet, r: Sextet, t: Sextet, tail: string, rest: seq<Byte>)
    requires UnBase64(tail) == Some(rest)
    ensures UnBase64([Symbol(p), Symbol(q), Symbol(r), Symbol(t)] + tail) ==
            Some([Octet1(p, q), Octet2(q, r), Octet3(r, t)] + rest)
  {
    hide Symbol, SymbolVal, IsSymbol, Octet1, Octet2, Octet3;
    SymbolRoundTrip(p);
    SymbolRoundTrip(q);
    SymbolRoundTrip(r);
    SymbolRoundTrip(t);
    var s := [Symbol(p), Symbol(q), Symbol(r), Symbol(t)] + tail;
    assert s[4..] == tail && s[2] == Symbol(r) && s[3] == Symbol(t);
    PadIsNoSymbol();
    assert !Ends(s, 2) && !Ends(s, 3);
  }

  lemma PadIsNoSymbol()
    ensures !IsSymbol('=')
  {
  }

  lemma {:induction false} Base64RoundTrip(bs: seq<Byte>)
    ensures UnBase64(Base64(bs)) == Some(bs)
  {
    hide Symbol, UnBase64, Octet1, Octet2, Octet3;
    if bs == [] {
      assert UnBase64("") == Some([]) by { EmptyGroup(); }
    } else if |bs| == 1 {
      GroupOfOne(bs[0]);
      assert bs == [bs[0]];
    } else if |bs| == 2 {
      GroupOfTwo(bs[0], bs[1]);
      assert bs == [bs[0], bs[1]];
    } else {
      var x, y, z := bs[0], bs[1], bs[2];
      GroupOfThree(x, y, z);
      Base64RoundTrip(bs[3..]);
      FullGroup(x / 4, x % 4 * 16 + y / 16, y % 16 * 4 + z / 64, z % 64, Base64(bs[3..]), bs[3..]);
      assert bs == [x, y, z] + bs[3..];
    }
  }

  lemma EmptyGroup()
    ensures UnBase64("") == Some([])
  {
  }

  // ---------------------------------------------------------------- padding

  function StripPadding(s: string): string {
    if s == "" || s[|s| - 1] != '=' then s else StripPadding(s[..|s| - 1])
  }

  /** "=" * (-n % 4) */
  function Padding(n: nat): string {
    var k := n % 4;
    if k == 0 then "" else if k == 1 then "===" else if k == 2 then "==" else "="
  }

  lemma StripSymbols(s: string, n: nat)
    requires AllSymbols(s)
    ensures StripPadding(s + Padding(n)) == s
  {
    assert StripPadding(s) == s && s + "" == s;
    assert (s + "=")[..|s|] == s;
    assert StripPadding(s + "=") == s;
    assert (s + "==")[..|s| + 1] == s + "=";
    assert StripPadding(s + "==") == s;
    assert (s + "===")[..|s| + 2] == s + "==";
    assert StripPadding(s + "===") == s;
  }

  /** The symbols without padding. */
  function Body(bs: seq<Byte>): string {
    if bs == [] then ""
    else if |bs| == 1 then Pair(bs[0])
    else if |bs| == 2 then Triple(bs[0], bs[1])
    else Quad(bs[0], bs[1], bs[2]) + Body(bs[3..])
  }

  lemma {:induction false} PaddedBody(bs: seq<Byte>)
    ensures var t := Body(bs); AllSymbols(t) && Base64(bs) == t + Padding(|t|) && (bs != [] ==> t != "")
  {
    hide Pair, Triple, Quad, IsSymbol, Padding;
    PadAfter(0);
    if |bs| > 2 {
      PaddedBody(bs[3..]);
      var g, t := Quad(bs[0], bs[1], bs[2]), Body(bs[3..]);
      PadAfter(|t|);
      assert g + (t + Padding(|t|)) == (g + t) + Padding(|g + t|);
    }
  }

  lemma PadAfter(n: nat)
    ensures Padding(4 + n) == Padding(n) && Padding(0) == "" && Padding(2) == "==" && Padding(3) == "="
  {
  }

  /** The token without its padding is all symbols, and the padding can be put back. */
  lemma PaddingRestored(bs: seq<Byte>)
    ensures var t := StripPadding(Base64(bs));
            AllSymbols(t) && t + Padding(|t|) == Base64(bs) && (bs != [] ==> t != "")
  {
    hide Base64, Body, Padding, StripPadding, AllSymbols;
    PaddedBody(bs);
    StripSymbols(Body(bs), |Body(bs)|);
  }

  // ---------------------------------------------------------------- the alphabet and the bits

  /** A to Z, a to z, 0 to 9, then "-" and "_". */
  function Letter(v: nat): char
    requires v < 64
  {
    if v < 26 then 'A' + v as char
    else if v < 52 then 'a' + (v - 26) as char
    else if v < 62 then '0' + (v - 52) as char
    else "-_"[v - 62]
  }

  lemma SymbolIsLetter(v: nat)
    requires v < 64
    ensures Symbol(v) == Letter(v)
  {
  }

  function OctetAt(bs: seq<Byte>, j: nat): Byte { if j < |bs| then bs[j] else 0 }

  /** The bits from 6 * i on, six of them, of the octets read as one string of bits with zeros after it. */
  function SixBits(bs: seq<Byte>, i: nat): nat {
    var j := i * 6 / 8;
    Window(OctetAt(bs, j), OctetAt(bs, j + 1), i % 4)
  }

  /** Six bits of two octets, from bit 0, 6, 4 or 2. */
  function Window(x: Byte, y: Byte, at: nat): nat {
    var two := x as int * 256 + y;
    if at == 0 then two / 1024 % 64 else if at == 1 then two / 16 % 64 else if at == 2 then two / 64 % 64
    else two / 256 % 64
  }

  lemma LaterBits(bs: seq<Byte>, i: nat)
    requires |bs| > 2
    ensures SixBits(bs, i + 4) == SixBits(bs[3..], i)
  {
    var j := i * 6 / 8;
    LaterPlace(i);
    assert OctetAt(bs, j + 3) == OctetAt(bs[3..], j) && OctetAt(bs, j + 4) == OctetAt(bs[3..], j + 1);
  }

  lemma LaterPlace(i: nat)
    ensures (i + 4) * 6 / 8 == i * 6 / 8 + 3 && (i + 4) % 4 == i % 4
  {
  }

  lemma FirstBits(bs: seq<Byte>)
    requires bs != []
    ensures var x, y, z := bs[0] as int, OctetAt(bs, 1), OctetAt(bs, 2);
            && SixBits(bs, 0) == x / 4 && SixBits(bs, 1) == x % 4 * 16 + y / 16
            && SixBits(bs, 2) == y % 16 * 4 + z / 64 && SixBits(bs, 3) == z % 64
  {
    hide Window;
    Windows(bs[0], OctetAt(bs, 1));
    Windows(OctetAt(bs, 1), OctetAt(bs, 2));
    Windows(OctetAt(bs, 2), OctetAt(bs, 3));
  }

  lemma Windows(x: Byte, y: Byte)
    ensures Window(x, y, 0) == x / 4 && Window(x, y, 1) == x % 4 * 16 + y / 16
    ensures Window(x, y, 2) == x % 16 * 4 + y / 64 && Window(x, y, 3) == x % 64
  {
    FirstSix(x, y);
    MiddleSix(x, y);
    LastSix(x, y);
  }

  lemma FirstSix(x: nat, y: nat)
    requires x < 256 && y < 256
    ensures (x * 256 + y) / 1024 % 64 == x / 4 && (x * 256 + y) / 256 % 64 == x % 64
  {
    assert (x * 256 + y) / 1024 == x / 4;
  }

  lemma LastSix(x: nat, y: nat)
    requires x < 256 && y < 256
    ensures (x * 256 + y) / 64 % 64 == x % 16 * 4 + y / 64
  {
    var q, low := x / 16, x % 16 * 4 + y / 64;
    assert (x * 256 + y) / 64 == x * 4 + y / 64 == q * 64 + low && low < 64;
  }

  lemma MiddleSix(x: nat, y: nat)
    requires x < 256 && y < 256
    ensures (x * 256 + y) / 16 % 64 == x % 4 * 16 + y / 16
  {
    var q, low := x / 4, x % 4 * 16 + y / 16;
    assert (x * 256 + y) / 16 == x * 16 + y / 16 == q * 64 + low && low < 64;
  }

  lemma {:induction false} BodyAt(bs: seq<Byte>, i: nat)
    requires i < (|bs| * 8 + 5) / 6
    ensures |Body(bs)| == (|bs| * 8 + 5) / 6 && SixBits(bs, i) < 64 && Body(bs)[i] == Letter(SixBits(bs, i))
  {
    hide Symbol, SixBits;
    FirstBits(bs);
    if |bs| > 2 && i >= 4 {
      BodyAt(bs[3..], i - 4);
      LaterBits(bs, i - 4);
    } else {
      SymbolIsLetter(SixBits(bs, i));
      if |bs| > 3 { BodyAt(bs[3..], 0); }
    }
  }

  /** Each symbol of the unpadded token is the letter of the next six bits. */
  lemma SymbolsAreBits(bs: seq<Byte>, i: nat)
    requires i < (|bs| * 8 + 5) / 6
    ensures var t := StripPadding(Base64(bs));
            |t| == (|bs| * 8 + 5) / 6 && SixBits(bs, i) < 64 && t[i] == Letter(SixBits(bs, i))
  {
    hide Base64, Body, Padding, StripPadding, AllSymbols, SixBits;
    PaddedBody(bs);
    StripSymbols(Body(bs), |Body(bs)|);
    BodyAt(bs, i);
  }

  // ---------------------------------------------------------------- int()

  predicate IsSpace(ch: char) { 9 <= ch as int <= 13 || 28 <= ch as int <= 32 }

  function StripLeft(s: string): string { if s == "" || !IsSpace(s[0]) then s else StripLeft(s[1..]) }

  function StripRight(s: string): string { if s == "" || !IsSpace(s[|s| - 1]) then s else StripRight(s[..|s| - 1]) }

  /** Digits, with single underscores allowed between them. */
  predicate Grouped(s: string) {
    && s != "" && IsDigit(s[0]) && IsDigit(s[|s| - 1])
    && (forall i :: 0 <= i < |s| ==> IsDigit(s[i]) || s[i] == '_')
    && (forall i :: 0 < i < |s| && s[i] == '_' ==> s[i - 1] != '_')
  }

  function DropUnderscores(s: string): string {
    if s == "" then "" else (if s[0] == '_' then "" else [s[0]]) + DropUnderscores(s[1..])
  }

  lemma {:induction false} DropKeepsDigits(s: string)
    requires forall i :: 0 <= i < |s| ==> IsDigit(s[i]) || s[i] == '_'
    ensures AllDigits(DropUnderscores(s)) && (AllDigits(s) ==> DropUnderscores(s) == s)
  {
    if s != "" {
      DropKeepsDigits(s[1..]);
      assert s == [s[0]] + s[1..];
    }
  }

  function GroupedVal(s: string): nat
    requires Grouped(s)
  {
    DropKeepsDigits(s);
    DigitsVal(DropUnderscores(s))
  }

  /** int() on ASCII text: surrounding space, one sign, digits with underscores. */
  function PyInt(text: string): Option<int> {
    var s := StripRight(StripLeft(text));
    var signed := s != "" && (s[0] == '-' || s[0] == '+');
    var body := if signed then s[1..] else s;
    if !Grouped(body) then None
    else
      var n: int := GroupedVal(body);
      Some(if signed && s[0] == '-' then -n else n)
  }

  lemma IntOfDigits(s: string)
    requires s != "" && AllDigits(s)
    ensures PyInt(s) == Some(DigitsVal(s))
  {
    hide DigitsVal;
    assert IsDigit(s[0]) && IsDigit(s[|s| - 1]);
    DropKeepsDigits(s);
  }

  // ---------------------------------------------------------------- the codec

  function Ascii(s: string): seq<Byte>
    requires AllDigits(s)
  {
    seq(|s|, i requires 0 <= i < |s| => s[i] as int)
  }

  function FromAscii(bs: seq<Byte>): Option<string> {
    if exists i :: 0 <= i < |bs| && bs[i] >= 128 then None
    else Some(seq(|bs|, i requires 0 <= i < |bs| => bs[i] as char))
  }

  function EncodeCursor(n: nat): string { StripPadding(Base64(Ascii(NatStr(n)))) }

  /** None is a bad cursor. */
  function DecodeCursor(token: string): Option<nat> {
    if token == "" || !AllSymbols(token) then None
    else
      match UnBase64(token + Padding(|token|))
      case None => None
      case Some(raw) =>
        match FromAscii(raw)
        case None => None
        case Some(text) =>
          match PyInt(text)
          case None => None
          case Some(n) => if n < 0 then None else Some(n)
  }

  lemma AsciiRoundTrip(s: string)
    requires AllDigits(s)
    ensures FromAscii(Ascii(s)) == Some(s)
  {
    var bs := Ascii(s);
    forall i | 0 <= i < |bs| ensures bs[i] < 128 && bs[i] as char == s[i] { assert IsDigit(s[i]); }
    var t := seq(|bs|, i requires 0 <= i < |bs| => bs[i] as char);
    assert FromAscii(bs) == Some(t) && t == s;
  }

  /** Every cursor the relay hands out is a token of the alphabet and is read back as the same number. */
  lemma CursorRoundTrip(n: nat)
    ensures EncodeCursor(n) != "" && AllSymbols(EncodeCursor(n)) && DecodeCursor(EncodeCursor(n)) == Some(n)
  {
    hide Base64, UnBase64, StripPadding, Padding, NatStr, DigitsVal, PyInt, FromAscii, Ascii, IsSymbol;
    var s := NatStr(n);
    var bs := Ascii(s);
    assert |bs| == |s| by { AsciiLength(s); }
    PaddingRestored(bs);
    Base64RoundTrip(bs);
    AsciiRoundTrip(s);
    IntOfDigits(s);
  }

  lemma AsciiLength(s: string)
    requires AllDigits(s)
    ensures |Ascii(s)| == |s|
  {
  }
}
