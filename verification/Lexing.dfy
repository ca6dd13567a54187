/** Tokens of a JSON text, over its Unicode scalar values (RFC 8259, with the limits of RFC 7493 section 2). */
module Lexing {
  import opened Values
  import opened Decimals
  import opened Numbers

  predicate IsWs(c: char) { c == ' ' || c == '\t' || c == '\n' || c == '\r' }

  function SkipWs(s: string): (r: string)
    ensures |r| <= |s| && (r == "" || !IsWs(r[0]))
  {
    if s != "" && IsWs(s[0]) then SkipWs(s[1..]) else s
  }

  /** Go's test: U+FDD0..U+FDEF, or the low sixteen bits are FFFE or FFFF. */
  predicate IsNonchar(c: char) {
    var r := c as int;
    0xFDD0 <= r <= 0xFDEF || (r % 0x10000) / 2 == 0x7FFF
  }

  /** Python's character class, plane by plane. */
  predicate PyNonchar(c: char) {
    var r := c as int;
    || 0xFDD0 <= r <= 0xFDEF
    || r in {0xFFFE, 0xFFFF, 0x1FFFE, 0x1FFFF, 0x2FFFE, 0x2FFFF, 0x3FFFE, 0x3FFFF, 0x4FFFE, 0x4FFFF,
             0x5FFFE, 0x5FFFF, 0x6FFFE, 0x6FFFF, 0x7FFFE, 0x7FFFF, 0x8FFFE, 0x8FFFF, 0x9FFFE, 0x9FFFF,
             0xAFFFE, 0xAFFFF, 0xBFFFE, 0xBFFFF, 0xCFFFE, 0xCFFFF, 0xDFFFE, 0xDFFFF, 0xEFFFE, 0xEFFFF,
             0xFFFFE, 0xFFFFF, 0x10FFFE, 0x10FFFF}
  }

  lemma NoncharsAgree(c: char)
    ensures PyNonchar(c) <==> IsNonchar(c)
  {
  }

  predicate Clean(s: string) { forall i :: 0 <= i < |s| ==> !IsNonchar(s[i]) }

  // ---------------------------------------------------------------- strings

  predicate IsHex(c: char) { IsDigit(c) || 'a' <= c <= 'f' || 'A' <= c <= 'F' }

  function HexVal(c: char): (v: nat)
    requires IsHex(c)
    ensures v < 16
  {
    if IsDigit(c) then c as int - '0' as int
    else if 'a' <= c <= 'f' then c as int - 'a' as int + 10
    else c as int - 'A' as int + 10
  }

  predicate HasHex4(s: string) { |s| >= 4 && IsHex(s[0]) && IsHex(s[1]) && IsHex(s[2]) && IsHex(s[3]) }

  function Hex4(s: string): (v: nat)
    requires HasHex4(s)
    ensures v < 0x10000
  {
    HexVal(s[0]) * 4096 + HexVal(s[1]) * 256 + HexVal(s[2]) * 16 + HexVal(s[3])
  }

  datatype Escape = BadEscape | Escape(c: char, n: nat)

  /** The escape after a backslash: the character it stands for and how many characters spell it. */
  function Unescape(s: string): (r: Escape)
    ensures r.Escape? ==> 0 < r.n <= |s|
  {
    if s == "" then BadEscape
    else match s[0]
      case '"' => Escape('"', 1)
      case '\\' => Escape('\\', 1)
      case '/' => Escape('/', 1)
      case 'b' => Escape('\U{08}', 1)
      case 'f' => Escape('\U{0C}', 1)
      case 'n' => Escape('\n', 1)
      case 'r' => Escape('\r', 1)
      case 't' => Escape('\t', 1)
      case 'u' => UnescapeU(s[1..])
      case _ => BadEscape
  }

  function UnescapeU(s: string): (r: Escape)
    ensures r.Escape? ==> 4 < r.n <= |s| + 1
  {
    if !HasHex4(s) then BadEscape
    else
      var cp := Hex4(s);
      if 0xD800 <= cp <= 0xDBFF then
        if |s| >= 6 && s[4] == '\\' && s[5] == 'u' && HasHex4(s[6..]) then
          var trail := Hex4(s[6..]);
          if 0xDC00 <= trail <= 0xDFFF then
            Escape((0x10000 + (cp - 0xD800) * 0x400 + (trail - 0xDC00)) as char, 11)
          else BadEscape
        else BadEscape
      else if 0xDC00 <= cp <= 0xDFFF then BadEscape
      else Escape(cp as char, 5)
  }

  datatype StrScan = BadString | String(text: string, rest: string)

  function Prepend(a: string, r: StrScan): StrScan { if r.BadString? then r else String(a + r.text, r.rest) }

  /** A string body up to its closing quote, noncharacters allowed. */
  function RawString(s: string): (r: StrScan)
    ensures r.String? ==> |r.rest| < |s|
    decreases |s|
  {
    if s == "" then BadString
    else if s[0] == '"' then String("", s[1..])
    else if s[0] == '\\' then
      match Unescape(s[1..])
      case BadEscape => BadString
      case Escape(c, n) => Prepend([c], RawString(s[1..][n..]))
    else if s[0] as int <= 0x1F then BadString
    else Prepend([s[0]], RawString(s[1..]))
  }

  /** A string body without noncharacters. */
  function LexString(s: string): StrScan {
    var r := RawString(s);
    if r.String? && Clean(r.text) then r else BadString
  }

  // ---------------------------------------------------------------- tokens

  datatype Token = LBrace | RBrace | LBracket | RBracket | Comma | Colon | Literal(v: Scalar) | Error

  datatype Lexed = End | Bad | Tok(t: Token, rest: string)

  function LexLiteral(s: string, word: string, v: Scalar): Lexed {
    if word <= s then Tok(Literal(v), s[|word|..]) else Bad
  }

  function LexNumber(fp: Binary64, s: string): (r: Lexed)
    ensures r.Tok? ==> |r.rest| < |s|
  {
    ScanNumberShape(s);
    match ScanNumber(s)
    case NoNumber => Bad
    case Number(t, rest) =>
      match NumberOf(fp, t)
      case None => Bad
      case Some(x) => Tok(Literal(Num(x)), rest)
  }

  /** The token at the front of a text that does not start with white space. */
  function LexOne(fp: Binary64, s: string): (r: Lexed)
    requires s != ""
    ensures r.Tok? ==> |r.rest| < |s|
    ensures !r.End?
  {
    var c := s[0];
    if c == '{' then Tok(LBrace, s[1..])
    else if c == '}' then Tok(RBrace, s[1..])
    else if c == '[' then Tok(LBracket, s[1..])
    else if c == ']' then Tok(RBracket, s[1..])
    else if c == ',' then Tok(Comma, s[1..])
    else if c == ':' then Tok(Colon, s[1..])
    else if c == '"' then
      match LexString(s[1..])
      case BadString => Bad
      case String(text, rest) => Tok(Literal(Str(text)), rest)
    else if c == 't' then LexLiteral(s, "true", Bool(true))
    else if c == 'f' then LexLiteral(s, "false", Bool(false))
    else if c == 'n' then LexLiteral(s, "null", Null)
    else if c == '-' || IsDigit(c) then LexNumber(fp, s)
    else Bad
  }

  /** All tokens of a text; a lexical error ends the list with `Error`. Reading lazily or eagerly
      therefore sees the same list. */
  function Tokens(fp: Binary64, s: string): seq<Token>
    decreases |s|
  {
    var t := SkipWs(s);
    if t == "" then []
    else match LexOne(fp, t)
      case Tok(tok, rest) => [tok] + Tokens(fp, rest)
      case _ => [Error]
  }

  lemma {:induction false} SkipWsTwice(s: string)
    ensures SkipWs(SkipWs(s)) == SkipWs(s)
  {
    if s != "" && IsWs(s[0]) { SkipWsTwice(s[1..]); }
  }

  lemma WsStep(s: string, i: nat)
    requires i < |s| && IsWs(s[i])
    ensures SkipWs(s[i..]) == SkipWs(s[i + 1..])
  {
    assert s[i..][1..] == s[i + 1..];
  }

  lemma TokensSkip(fp: Binary64, s: string)
    ensures Tokens(fp, SkipWs(s)) == Tokens(fp, s)
  {
    hide LexOne;
    SkipWsTwice(s);
  }
}
