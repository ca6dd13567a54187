/** The two JSON front ends on a decoded text: whole-text checks, parser, and the object requirement. */
module Documents {
  import opened Values
  import opened Decimals
  import opened Lexing
  import opened Grammar
  import opened RoundTrip
  import opened CleanText
  import Python = PythonParser
  import Go = GoParser

  /** A received text as the protocol reads it: a JSON document that is an object. */
  function ParseObject(fp: Binary64, s: string): Option<Value> {
    match Parse(fp, s)
    case Some(v) => if v.Obj? then Some(v) else None
    case None => None
  }

  lemma AcceptedIsClean(fp: Binary64, s: string)
    requires Parse(fp, s).Some?
    ensures Clean(s)
  {
    hide Tokens;
    if Error in Tokens(fp, s) { Go.ErrorNeverParses(Tokens(fp, s)); }
    TokensClean(fp, s);
  }

  /** Python: scan the whole text for noncharacters, parse, require an object. */
  method PyParseObject(fp: Binary64, text: string) returns (r: Option<Value>)
    ensures r == ParseObject(fp, text)
  {
    hide Tokens, PDocument;
    for i := 0 to |text|
      invariant Clean(text[..i])
    {
      NoncharsAgree(text[i]);
      if PyNonchar(text[i]) {
        if Parse(fp, text).Some? { AcceptedIsClean(fp, text); }
        return None;
      }
      assert text[..i + 1] == text[..i] + [text[i]];
    }
    var v := Python.ParseDocument(fp, text);
    if v == None || !v.value.Obj? { return None; }
    return v;
  }

  const BOM := '\U{FEFF}'

  /** Go: refuse a byte order mark, tokenize and build, require an object. */
  method GoParseIJson(fp: Binary64, text: string) returns (r: Option<Value>)
    ensures r == ParseObject(fp, text)
  {
    hide Tokens, PDocument;
    if text != "" && text[0] == BOM {
      BomRefused(fp, text);
      return None;
    }
    var v := Go.ParseDocument(fp, text);
    if v == None || !v.value.Obj? { return None; }
    return v;
  }

  lemma BomRefused(fp: Binary64, text: string)
    requires text != "" && text[0] == BOM
    ensures Parse(fp, text) == None
  {
    hide PDocument;
    assert SkipWs(text) == text;
    assert Tokens(fp, text) == [Error];
    Go.ErrorNeverParses(Tokens(fp, text));
  }
}
