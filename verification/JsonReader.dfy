/** A reader of JSON text, by sections 2 and 7 of RFC 8259, and why it reads back what the printer writes. */
module JsonReader {
  import opened Text
  import opened Evaluation
  import opened CanonicalJson
  import opened JsonQuoting
  import J = JsonTokens

  // ---------------------------------------------------------------- Strings

  function HexValue(c: char): (d: Option<int>)
    ensures d.Some? ==> 0 <= d.value < 16
  {
    if '0' <= c <= '9' then Some(c as int - '0' as int)
    else if 'a' <= c <= 'f' then Some(c as int - 'a' as int + 10)
    else if 'A' <= c <= 'F' then Some(c as int - 'A' as int + 10)
    else None
  }

  /** The number some hexadecimal digits spell. */
  function HexNumber(s: string): (n: Option<nat>)
  {
    if s == "" then Some(0)
    else
      match (HexNumber(s[..|s| - 1]), HexValue(s[|s| - 1]))
      case (Some(n), Some(d)) => Some(16 * n + d)
      case _ => None
  }

  /** The character after a backslash, and how many characters spell it. A pair of surrogates is not read. */
  function Escaped(s: string): (read: Option<(char, nat)>)
    ensures read.Some? ==> 1 <= read.value.1 <= |s|
  {
    if s == "" then None
    else if s[0] == '\"' || s[0] == '\\' || s[0] == '/' then Some((s[0], 1))
    else if s[0] == 'b' then Some((8 as char, 1))
    else if s[0] == 'f' then Some((12 as char, 1))
    else if s[0] == 'n' then Some((10 as char, 1))
    else if s[0] == 'r' then Some((13 as char, 1))
    else if s[0] == 't' then Some((9 as char, 1))
    else if s[0] == 'u' && |s| >= 5 then
      match HexNumber(s[1..5])
      case Some(n) => if n < 0xD800 || 0xE000 <= n < 0x1_0000 then Some((n as char, 5)) else None
      case None => None
    else None
  }

  /** Reads the rest of a string after its opening quotation mark. */
  function ReadString(s: string): (read: Option<(string, string)>)
    ensures read.Some? ==> |read.value.1| < |s|
  {
    if s == "" || s[0] < ' ' then None
    else if s[0] == '\"' then Some(("", s[1..]))
    else if s[0] != '\\' then Prefixed(s[0], ReadString(s[1..]))
    else
      match Escaped(s[1..])
      case None => None
      case Some((c, n)) => Prefixed(c, ReadString(s[1 + n..]))
  }

  function Prefixed(c: char, read: Option<(string, string)>): (longer: Option<(string, string)>)
    ensures longer.Some? ==> read.Some? && longer.value.1 == read.value.1
  {
    if read.None? then None else Some(([c] + read.value.0, read.value.1))
  }

  lemma HexCharValue(d: int)
    requires 0 <= d < 16
    ensures HexValue(HexChar(d)) == Some(d)
  {
  }

  lemma {:induction false} HexDigitsRead(n: nat, digits: nat)
    requires n < Pow16(digits)
    ensures HexNumber(HexDigits(n, digits)) == Some(n)
  {
    if digits > 0 {
      var s := HexDigits(n, digits);
      HexDigitsRead(n / 16, digits - 1);
      HexCharValue(n % 16);
      assert s[..|s| - 1] == HexDigits(n / 16, digits - 1) && s[|s| - 1] == HexChar(n % 16);
    }
  }

  lemma ShortEscapeReads(c: char, u: string)
    requires ShortEscape(c)
    ensures Escaped([EscapeLetter(c)] + u) == Some((c, 1))
  {
  }

  lemma LongEscapeReads(c: char, u: string)
    requires LongEscape(c)
    ensures Escaped("u" + HexDigits(c as int, 4) + u) == Some((c, 5))
  {
    var s := "u" + HexDigits(c as int, 4) + u;
    assert Pow16(4) == 0x1_0000;
    HexDigitsRead(c as int, 4);
    assert s[0] == 'u' && s[1..5] == HexDigits(c as int, 4);
  }

  /** What is read after the code of a character is prefixed with that character. */
  lemma CodeReads(c: char, u: string)
    ensures ReadString(EscapeChar(c) + u) == Prefixed(c, ReadString(u))
  {
    var s := EscapeChar(c) + u;
    if ShortEscape(c) {
      ShortEscapeReads(c, u);
      assert s[1..] == [EscapeLetter(c)] + u && s[1 + 1..] == u;
    } else if LongEscape(c) {
      LongEscapeReads(c, u);
      assert s[1..] == "u" + HexDigits(c as int, 4) + u && s[1 + 5..] == u;
    } else {
      assert s[1..] == u;
    }
  }

  /** Reading an encoded string gives the string, and leaves what follows it. */
  lemma {:induction false} QuotedStringReads(s: string, u: string)
    ensures ReadString(EscapeAll(s) + "\"" + u) == Some((s, u))
  {
    if s == "" {
      assert (EscapeAll(s) + "\"" + u)[1..] == u;
    } else {
      FirstCode(s, u);
      CodeReads(s[0], EscapeAll(s[1..]) + "\"" + u);
      QuotedStringReads(s[1..], u);
      assert s == [s[0]] + s[1..];
    }
  }

  // ---------------------------------------------------------------- Tokens

  predicate JsonSpace(c: char) {
    c == ' ' || c == '\t' || c == '\n' || c == '\r'
  }

  /** The end of the run of word characters. */
  function WordEnd(s: string): (n: nat)
    ensures n <= |s| && forall i | 0 <= i < n :: WordChar(s[i])
    ensures n < |s| ==> !WordChar(s[n])
  {
    if s != "" && WordChar(s[0]) then 1 + WordEnd(s[1..]) else 0
  }

  function Punctuation(c: char): Option<J.Tok> {
    if c == '{' then Some(J.LBrace) else if c == '}' then Some(J.RBrace)
    else if c == '[' then Some(J.LBracket) else if c == ']' then Some(J.RBracket)
    else if c == ':' then Some(J.Colon) else if c == ',' then Some(J.Comma)
    else None
  }

  function Before(tok: J.Tok, rest: Option<seq<J.Tok>>): Option<seq<J.Tok>> {
    if rest.None? then None else Some([tok] + rest.value)
  }

  /** The tokens of a text. */
  function Lex(s: string): Option<seq<J.Tok>>
    decreases |s|
  {
    if s == "" then Some([])
    else if JsonSpace(s[0]) then Lex(s[1..])
    else if Punctuation(s[0]).Some? then Before(Punctuation(s[0]).value, Lex(s[1..]))
    else if s[0] == '\"' then
      match ReadString(s[1..])
      case None => None
      case Some((text, rest)) => Before(J.Str(text), Lex(rest))
    else if WordChar(s[0]) then Before(J.Word(s[..WordEnd(s)]), Lex(s[WordEnd(s)..]))
    else None
  }

  lemma WordEndsAt(word: string, rest: string)
    requires WordText(word) && (rest != "" ==> !WordChar(rest[0]))
    ensures WordEnd(word + rest) == |word|
  {
    var s := word + rest;
    forall i | 0 <= i < |word| ensures WordChar(s[i]) { assert s[i] == word[i]; }
    if |word| < |s| {
      assert s[|word|] == rest[0];
    }
  }

  lemma StringReads(text: string, rest: string)
    ensures Lex(Quote(text) + rest) == Before(J.Str(text), Lex(rest))
  {
    AfterQuote(text, rest);
    QuotedStringReads(text, rest);
  }

  lemma WordReads(word: string, rest: string)
    requires WordText(word) && (rest != "" ==> !WordChar(rest[0]))
    ensures Lex(word + rest) == Before(J.Word(word), Lex(rest))
  {
    var s := word + rest;
    WordEndsAt(word, rest);
    WordIsNothingElse(word[0]);
    assert s[0] == word[0] && s[..|word|] == word && s[|word|..] == rest;
  }

  lemma PunctuationReads(c: char, rest: string)
    requires Punctuation(c).Some?
    ensures Lex([c] + rest) == Before(Punctuation(c).value, Lex(rest))
  {
    assert ([c] + rest)[1..] == rest;
  }

  /** The characters of one token are read as that token. */
  lemma TokenReads(tok: J.Tok, rest: string)
    requires !tok.Bad? && (tok.Word? ==> WordText(tok.text) && (rest != "" ==> !WordChar(rest[0])))
    ensures Lex(Spell(tok, Quote) + rest) == Before(tok, Lex(rest))
  {
    match tok
    case Str(text) => StringReads(text, rest);
    case Word(word) => WordReads(word, rest);
    case LBrace => PunctuationReads('{', rest);
    case RBrace => PunctuationReads('}', rest);
    case LBracket => PunctuationReads('[', rest);
    case RBracket => PunctuationReads(']', rest);
    case Colon => PunctuationReads(':', rest);
    case Comma => PunctuationReads(',', rest);
  }

  lemma WordIsNothingElse(c: char)
    requires WordChar(c)
    ensures !JsonSpace(c) && Punctuation(c).None? && c != '\"'
  {
  }

  /** Spaced tokens are read back from their characters. */
  lemma {:induction false} SpelledTokensRead(ts: seq<J.Tok>)
    requires Spaced(ts)
    ensures Lex(SpellAll(ts, Quote)) == Some(ts)
  {
    if ts != [] {
      QuoteIsSelfDelimiting();
      if ts[0].Word? {
        AfterWord(ts[1..], Quote);
      }
      SpelledTokensRead(ts[1..]);
      TokenReads(ts[0], SpellAll(ts[1..], Quote));
      assert ts == [ts[0]] + ts[1..];
    }
  }

  // ---------------------------------------------------------------- Values

  /** The value of a text: its tokens, read as one value. */
  ghost function ReadText(s: string): Option<Json> {
    var ts := Lex(s);
    if ts.None? then None else Decode(ts.value)
  }

  lemma CanonicalPassesCheck(v: Json)
    ensures J.CheckValue(Canonical(v)) == Some([])
  {
    CanonicalHasNoDuplicates(v);
    assert J.NoDuplicates(TreeOf(v)) && J.Tokens(TreeOf(v)) == Canonical(v);
    J.CheckIsExact(Canonical(v));
  }

  /** Reading the canonical text of a value gives the value back, and no field name occurs twice in it. */
  lemma CanonicalTextReadsBack(v: Json)
    requires Valid(v)
    ensures ReadText(CanonicalText(v, Quote)) == Some(v)
    ensures Lex(CanonicalText(v, Quote)) == Some(Canonical(v)) && J.CheckValue(Canonical(v)) == Some([])
  {
    ValidTreesAreSpelled(v);
    TreeIsSpaced(TreeOf(v), []);
    assert Canonical(v) + [] == Canonical(v);
    SpelledTokensRead(Canonical(v));
    DecodeCanonical(v);
    CanonicalPassesCheck(v);
  }
}
