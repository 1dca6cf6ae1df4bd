/** The string encoding of json.Marshal, and why canonical texts under it keep values apart. */
module JsonQuoting {
  import opened Text
  import opened CanonicalJson

  /** Characters written as a backslash and a letter. */
  predicate ShortEscape(c: char) {
    c == '\"' || c == '\\' || c == '\n' || c == '\r' || c == '\t' || c as int == 8 || c as int == 12
  }

  function EscapeLetter(c: char): char
    requires ShortEscape(c)
  {
    if c == '\n' then 'n' else if c == '\r' then 'r' else if c == '\t' then 't'
    else if c as int == 8 then 'b' else if c as int == 12 then 'f' else c
  }

  /** Other control characters, the characters unsafe in HTML, and the two line separators. */
  predicate LongEscape(c: char) {
    !ShortEscape(c) && (c < ' ' || c == '<' || c == '>' || c == '&' || c as int == 0x2028 || c as int == 0x2029)
  }

  function EscapeChar(c: char): (code: string)
    ensures code != "" && code[0] != '\"'
  {
    if ShortEscape(c) then ['\\', EscapeLetter(c)]
    else if LongEscape(c) then ['\\', 'u'] + HexDigits(c as int, 4)
    else [c]
  }

  function EscapeAll(s: string): string {
    if s == "" then "" else EscapeChar(s[0]) + EscapeAll(s[1..])
  }

  /** json.Marshal of a string. */
  function Quote(s: string): string {
    "\"" + EscapeAll(s) + "\""
  }

  /** No character's code is the beginning of another's. */
  lemma CodesReadOnce(c: char, d: char, u: string, w: string)
    requires EscapeChar(c) + u == EscapeChar(d) + w
    ensures c == d && u == w
  {
    var s, t := EscapeChar(c) + u, EscapeChar(d) + w;
    assert s[0] == EscapeChar(c)[0] && t[0] == EscapeChar(d)[0];
    if s[0] == '\\' {
      assert s[1] == EscapeChar(c)[1] && t[1] == EscapeChar(d)[1];
      if s[1] == 'u' {
        assert s[2..6] == HexDigits(c as int, 4) && t[2..6] == HexDigits(d as int, 4);
        assert Pow16(4) == 0x1_0000;
        HexDigitsOrder(c as int, d as int, 4);
      }
    }
    assert u == s[|EscapeChar(c)|..] && w == t[|EscapeChar(d)|..];
  }

  lemma FirstCode(s: string, u: string)
    requires s != ""
    ensures EscapeAll(s) + "\"" + u == EscapeChar(s[0]) + (EscapeAll(s[1..]) + "\"" + u)
  {
  }

  /** Only the end of the string shows a bare quotation mark. */
  lemma FirstCharacter(s: string, u: string)
    ensures EscapeAll(s) + "\"" + u != "" && ((EscapeAll(s) + "\"" + u)[0] == '\"' <==> s == "")
  {
    if s != "" {
      FirstCode(s, u);
    }
  }

  lemma {:induction false} EscapedReadsOnce(s: string, t: string, u: string, w: string)
    requires EscapeAll(s) + "\"" + u == EscapeAll(t) + "\"" + w
    ensures s == t
  {
    FirstCharacter(s, u);
    FirstCharacter(t, w);
    if s != "" {
      FirstCode(s, u);
      FirstCode(t, w);
      CodesReadOnce(s[0], t[0], EscapeAll(s[1..]) + "\"" + u, EscapeAll(t[1..]) + "\"" + w);
      EscapedReadsOnce(s[1..], t[1..], u, w);
      assert s == [s[0]] + s[1..] && t == [t[0]] + t[1..];
    }
  }

  lemma AfterQuote(s: string, u: string)
    ensures (Quote(s) + u)[1..] == EscapeAll(s) + "\"" + u
  {
  }

  lemma QuoteReadsOnce(s: string, t: string, u: string, w: string)
    ensures ReadsOnce(Quote, s, t, u, w)
  {
    if Quote(s) + u == Quote(t) + w {
      AfterQuote(s, u);
      AfterQuote(t, w);
      EscapedReadsOnce(s, t, u, w);
    }
  }

  /** The encoding starts with a quotation mark and can be read off the front of a text in one way only. */
  lemma QuoteIsSelfDelimiting()
    ensures SelfDelimiting(Quote)
  {
    forall s ensures Quote(s) != "" && Quote(s)[0] == '\"' {}
    forall s, t, u, w ensures ReadsOnce(Quote, s, t, u, w) { QuoteReadsOnce(s, t, u, w); }
  }

  /** Values with the same canonical text, in the encoding the code uses, are the same value. */
  lemma CanonicalTextDecidesEquality(v: Json, w: Json)
    requires Valid(v) && Valid(w)
    ensures CanonicalText(v, Quote) == CanonicalText(w, Quote) <==> v == w
  {
    QuoteIsSelfDelimiting();
    if CanonicalText(v, Quote) == CanonicalText(w, Quote) {
      CanonicalTextIsInjective(v, w, Quote);
    }
  }
}
