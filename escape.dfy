/**
 * escapeString: how a string scalar is written in the emitted YAML. A
 * string is left bare unless some trigger applies; a triggered string is
 * single-quoted (with every ' doubled), or, when it holds a tab, newline or
 * carriage return, double-quoted with backslash escapes.
 */
module Escape {
  import opened Wrappers

  // ---------------------------------------------------------------------
  // Triggers

  /** The words that YAML readers may take for booleans. */
  const BoolWords: seq<string> := ["true", "false", "yes", "no", "on", "off"]

  /** Leading characters that force quoting (digits and YAML indicators). */
  const QuoteLeaders: seq<char> :=
    ['0', '1', '2', '3', '4', '5', '6', '7', '8', '9',
     ',', '!', '@', '#', '%', '&', '*', '|', '`', '[', ']', '{', '}']

  /**
   * Simple case folding, exact for every character whose folding orbit
   * holds an ASCII letter: A-Z fold to a-z, the long s (U+017F) folds to
   * s and the Kelvin sign (U+212A) folds to k. Every other character is
   * its own fold.
   */
  function FoldChar(c: char): (f: char)
    ensures 'a' <= c <= 'z' ==> f == c
    ensures 'A' <= c <= 'Z' ==> f as int == c as int + 32
  {
    if 'A' <= c <= 'Z' then (c as int + 32) as char
    else if c == '\U{017F}' then 's'
    else if c == '\U{212A}' then 'k'
    else c
  }

  /** strings.EqualFold against a word of ASCII letters. */
  predicate EqualFold(s: string, word: string)
  {
    |s| == |word| && forall i :: 0 <= i < |s| ==> FoldChar(s[i]) == FoldChar(word[i])
  }

  /** The value reads as a boolean word in any letter case. */
  predicate BoolLike(value: string)
  {
    exists w :: w in BoolWords && EqualFold(value, w)
  }

  /** The value holds a character that only the double-quoted form can carry on one line. */
  predicate NeedsDoubleQuote(value: string)
  {
    '\r' in value || '\n' in value || '\t' in value
      || (|value| > 0 && (value[0] == '\t' || value[|value| - 1] == '\t'))
  }

  /** Some trigger of escapeString applies. */
  predicate NeedsQuote(quoteAll: bool, value: string)
  {
    || quoteAll
    || BoolLike(value)
    || (|value| > 0 && value[0] in QuoteLeaders)
    || '"' in value || '\'' in value
    || NeedsDoubleQuote(value)
    || '{' in value || '}' in value
    || (|value| > 0 && (value[0] == ' ' || value[|value| - 1] == ' '))
    || |value| == 0
  }

  // ---------------------------------------------------------------------
  // Replacement

  /** strings.Replace(s, string(c), t, -1): every occurrence of c becomes t. */
  function ReplaceAll(s: string, c: char, t: string): (r: string)
    ensures |t| >= 1 ==> |r| >= |s|
    ensures c !in s ==> r == s
  {
    if s == [] then []
    else (if s[0] == c then t else [s[0]]) + ReplaceAll(s[1..], c, t)
  }

  lemma {:induction false} ReplaceAppend(a: string, b: string, c: char, t: string)
    ensures ReplaceAll(a + b, c, t) == ReplaceAll(a, c, t) + ReplaceAll(b, c, t)
    decreases |a|
  {
    if a == [] {
      assert a + b == b;
    } else {
      var s := a + b;
      assert s[0] == a[0] && s[1..] == a[1..] + b;
      ReplaceAppend(a[1..], b, c, t);
      var h := if a[0] == c then t else [a[0]];
      ReplaceFront(s, c, t);
      ReplaceFront(a, c, t);
      Regroup(h, ReplaceAll(a[1..], c, t), ReplaceAll(b, c, t));
    }
  }

  /** One step of the replacement: the first character's image, then the rest. */
  lemma ReplaceFront(s: string, c: char, t: string)
    requires s != []
    ensures ReplaceAll(s, c, t) == (if s[0] == c then t else [s[0]]) + ReplaceAll(s[1..], c, t)
  {
  }

  lemma Regroup(h: string, x: string, y: string)
    ensures h + (x + y) == (h + x) + y
  {
  }

  lemma ReplaceSingle(x: char, c: char, t: string)
    ensures ReplaceAll([x], c, t) == if x == c then t else [x]
  {
    assert [x][1..] == [];
  }

  /** The five replacements of the double-quoted branch, backslash first. */
  function EscapeDouble(value: string): (r: string)
  {
    var r1 := ReplaceAll(value, '\\', "\\\\");
    var r2 := ReplaceAll(r1, '"', "\\\"");
    ControlEscapes(r2)
  }

  /** The last three replacements: tab, newline, carriage return. */
  function ControlEscapes(s: string): (r: string)
    ensures '\t' !in s && '\n' !in s && '\r' !in s ==> r == s
  {
    var r3 := ReplaceAll(s, '\t', "\\t");
    var r4 := ReplaceAll(r3, '\n', "\\n");
    ReplaceAll(r4, '\r', "\\r")
  }

  /** The single-quoted body: every ' doubled. */
  function EscapeSingle(value: string): (r: string)
    ensures |r| >= |value|
  {
    ReplaceAll(value, '\'', "''")
  }

  /** escapeString, with the force-quote flag as a parameter. */
  function EscapeString(quoteAll: bool, value: string): (r: string)
    ensures !NeedsQuote(quoteAll, value) ==> r == value
    ensures NeedsQuote(quoteAll, value) ==> |r| >= |value| + 2
  {
    if !NeedsQuote(quoteAll, value) then value
    else if NeedsDoubleQuote(value) then
      EscapeDoubleLength(value);
      "\"" + EscapeDouble(value) + "\""
    else
      "'" + EscapeSingle(value) + "'"
  }

  lemma EscapeDoubleLength(value: string)
    ensures |EscapeDouble(value)| >= |value|
  {
  }

  // ---------------------------------------------------------------------
  // The double-quoted body is a per-character escape

  /** The escape of one character in a double-quoted scalar. */
  function EscapeChar(c: char): (r: string)
    ensures 1 <= |r| <= 2
    ensures |r| == 1 <==> c !in "\\\"\t\n\r"
  {
    match c
    case '\\' => "\\\\"
    case '"' => "\\\""
    case '\t' => "\\t"
    case '\n' => "\\n"
    case '\r' => "\\r"
    case _ => [c]
  }

  /** Character-wise escape: the independent reference for the replacement chain. */
  function EscapeBody(value: string): (r: string)
  {
    if value == [] then [] else EscapeChar(value[0]) + EscapeBody(value[1..])
  }

  lemma EscapeDoubleAppend(a: string, b: string)
    ensures EscapeDouble(a + b) == EscapeDouble(a) + EscapeDouble(b)
  {
    var a1, b1 := ReplaceAll(a, '\\', "\\\\"), ReplaceAll(b, '\\', "\\\\");
    ReplaceAppend(a, b, '\\', "\\\\");
    var a2, b2 := ReplaceAll(a1, '"', "\\\""), ReplaceAll(b1, '"', "\\\"");
    ReplaceAppend(a1, b1, '"', "\\\"");
    ControlEscapesAppend(a2, b2);
  }

  lemma ControlEscapesAppend(a: string, b: string)
    ensures ControlEscapes(a + b) == ControlEscapes(a) + ControlEscapes(b)
  {
    var a3, b3 := ReplaceAll(a, '\t', "\\t"), ReplaceAll(b, '\t', "\\t");
    ReplaceAppend(a, b, '\t', "\\t");
    var a4, b4 := ReplaceAll(a3, '\n', "\\n"), ReplaceAll(b3, '\n', "\\n");
    ReplaceAppend(a3, b3, '\n', "\\n");
    ReplaceAppend(a4, b4, '\r', "\\r");
  }

  /** On one character the chain of replacements is that character's escape. */
  lemma EscapeDoubleChar(c: char)
    ensures EscapeDouble([c]) == EscapeChar(c)
  {
    ReplaceSingle(c, '\\', "\\\\");
    if c == '\\' {
      BackslashEscape();
    } else {
      ReplaceSingle(c, '"', "\\\"");
      if c == '"' {
        QuoteEscape();
      } else {
        ControlEscapeChar(c);
      }
    }
  }

  lemma BackslashEscape()
    ensures EscapeDouble(['\\']) == "\\\\"
  {
    ReplaceSingle('\\', '\\', "\\\\");
    assert '"' !in "\\\\";
  }

  lemma QuoteEscape()
    ensures EscapeDouble(['"']) == "\\\""
  {
    ReplaceSingle('"', '\\', "\\\\");
    ReplaceSingle('"', '"', "\\\"");
  }

  lemma ControlEscapeChar(c: char)
    requires c != '\\' && c != '"'
    ensures ControlEscapes([c]) == EscapeChar(c)
  {
    ReplaceSingle(c, '\t', "\\t");
    var r3 := ReplaceAll([c], '\t', "\\t");
    if c == '\t' {
      assert '\n' !in r3 && '\r' !in r3;
    } else {
      ReplaceSingle(c, '\n', "\\n");
      var r4 := ReplaceAll([c], '\n', "\\n");
      if c == '\n' {
        assert '\r' !in r4;
      } else {
        ReplaceSingle(c, '\r', "\\r");
      }
    }
  }

  /**
   * Replacing backslash first, then the quote, tab, newline and carriage
   * return escapes every character on its own: no replacement touches
   * what an earlier one produced.
   */
  lemma {:induction false} EscapeDoubleIsPerChar(value: string)
    ensures EscapeDouble(value) == EscapeBody(value)
    decreases |value|
  {
    if value == [] {
    } else {
      assert value == [value[0]] + value[1..];
      EscapeDoubleAppend([value[0]], value[1..]);
      EscapeDoubleChar(value[0]);
      EscapeDoubleIsPerChar(value[1..]);
    }
  }

  /** The escaped body holds no raw tab, newline or carriage return. */
  lemma {:induction false} EscapeBodyOneLine(value: string)
    ensures '\t' !in EscapeBody(value) && '\n' !in EscapeBody(value) && '\r' !in EscapeBody(value)
    decreases |value|
  {
    if value != [] {
      EscapeBodyOneLine(value[1..]);
      EscapeCharOneLine(value[0]);
      var e, rest := EscapeChar(value[0]), EscapeBody(value[1..]);
      assert EscapeBody(value) == e + rest;
    }
  }

  lemma EscapeCharOneLine(c: char)
    ensures '\t' !in EscapeChar(c) && '\n' !in EscapeChar(c) && '\r' !in EscapeChar(c)
  {
  }

  // ---------------------------------------------------------------------
  // Reading the emitted scalar back

  function ConsOpt(c: char, r: Option<string>): Option<string>
  {
    if r.Some? then Some([c] + r.value) else None
  }

  /** The character a backslash escape stands for. */
  function Unescaped(e: char): (r: Option<char>)
    ensures r.Some? ==> EscapeChar(r.value) == ['\\', e]
  {
    match e
    case '\\' => Some('\\')
    case '"' => Some('"')
    case 't' => Some('\t')
    case 'n' => Some('\n')
    case 'r' => Some('\r')
    case _ => None
  }

  /**
   * Reads the body of a double-quoted scalar: a backslash escape stands
   * for its character, a bare " or a dangling backslash is malformed.
   */
  function Unescape(b: string): (r: Option<string>)
    decreases |b|
  {
    if b == [] then Some([])
    else if b[0] == '\\' then
      if |b| < 2 then None
      else
        match Unescaped(b[1])
        case None => None
        case Some(c) => ConsOpt(c, Unescape(b[2..]))
    else if b[0] == '"' then None
    else ConsOpt(b[0], Unescape(b[1..]))
  }

  /** Reads the body of a single-quoted scalar: '' stands for ', a lone ' is malformed. */
  function Unsingle(b: string): (r: Option<string>)
    decreases |b|
  {
    if b == [] then Some([])
    else if b[0] == '\'' then
      if |b| >= 2 && b[1] == '\'' then ConsOpt('\'', Unsingle(b[2..])) else None
    else ConsOpt(b[0], Unsingle(b[1..]))
  }

  /** Reads a scalar as written: double-quoted, single-quoted, or bare. */
  function ReadScalar(r: string): (v: Option<string>)
  {
    if |r| >= 2 && r[0] == '"' && r[|r| - 1] == '"' then Unescape(r[1..|r| - 1])
    else if |r| >= 2 && r[0] == '\'' && r[|r| - 1] == '\'' then Unsingle(r[1..|r| - 1])
    else Some(r)
  }

  lemma {:induction false} UnescapeRoundTrip(value: string)
    ensures Unescape(EscapeBody(value)) == Some(value)
    decreases |value|
  {
    if value != [] {
      var c, rest := value[0], EscapeBody(value[1..]);
      assert EscapeBody(value) == EscapeChar(c) + rest;
      UnescapeRoundTrip(value[1..]);
      UnescapeChar(c, rest);
      assert value == [c] + value[1..];
    }
  }

  /** Reading back one escaped character. */
  lemma UnescapeChar(c: char, rest: string)
    ensures Unescape(EscapeChar(c) + rest) == ConsOpt(c, Unescape(rest))
  {
    var b := EscapeChar(c) + rest;
    if |EscapeChar(c)| == 2 {
      assert b[2..] == rest;
    } else {
      assert b[1..] == rest;
    }
  }

  lemma {:induction false} UnsingleRoundTrip(value: string)
    ensures Unsingle(EscapeSingle(value)) == Some(value)
    decreases |value|
  {
    if value != [] {
      var c := value[0];
      var b := EscapeSingle(value);
      UnsingleRoundTrip(value[1..]);
      if c == '\'' {
        assert b == "''" + EscapeSingle(value[1..]);
        assert b[2..] == EscapeSingle(value[1..]);
      } else {
        assert b == [c] + EscapeSingle(value[1..]);
        assert b[1..] == EscapeSingle(value[1..]);
      }
      assert value == [c] + value[1..];
    }
  }

  /**
   * Reading the written scalar back yields the original string: the double-
   * and single-quoted forms undo their escaping, and the bare form is taken
   * verbatim. The plain-scalar resolution a YAML reader applies to bare text
   * (null, booleans, numbers) is not part of ReadScalar.
   */
  lemma EscapeRoundTrip(quoteAll: bool, value: string)
    ensures ReadScalar(EscapeString(quoteAll, value)) == Some(value)
  {
    if !NeedsQuote(quoteAll, value) {
      // a bare value holds no quote character, so it is not read as quoted
      assert value[0] in value;
      ReadBare(value);
    } else if NeedsDoubleQuote(value) {
      DoubleQuotedForm(quoteAll, value);
      ReadDouble(EscapeBody(value));
      UnescapeRoundTrip(value);
    } else {
      ReadSingle(EscapeSingle(value));
      UnsingleRoundTrip(value);
    }
  }

  lemma ReadBare(r: string)
    requires r != [] && r[0] != '"' && r[0] != '\''
    ensures ReadScalar(r) == Some(r)
  {
  }

  lemma ReadDouble(b: string)
    ensures ReadScalar("\"" + b + "\"") == Unescape(b)
  {
    var r := "\"" + b + "\"";
    assert r[1..|r| - 1] == b;
  }

  lemma ReadSingle(b: string)
    ensures ReadScalar("'" + b + "'") == Unsingle(b)
  {
    var r := "'" + b + "'";
    assert r[1..|r| - 1] == b;
  }

  /**
   * escapeString leaves its input unchanged exactly when no trigger
   * applies; otherwise it wraps it in quotes.
   */
  lemma UnchangedIffNoTrigger(quoteAll: bool, value: string)
    ensures EscapeString(quoteAll, value) == value <==> !NeedsQuote(quoteAll, value)
    ensures NeedsQuote(quoteAll, value) && NeedsDoubleQuote(value) ==>
      EscapeString(quoteAll, value)[0] == '"'
    ensures NeedsQuote(quoteAll, value) && !NeedsDoubleQuote(value) ==>
      EscapeString(quoteAll, value)[0] == '\''
  {
  }

  /** The emitted scalar never spans lines and never holds a raw tab. */
  lemma EscapeOneLine(quoteAll: bool, value: string)
    ensures '\n' !in EscapeString(quoteAll, value)
    ensures '\r' !in EscapeString(quoteAll, value)
    ensures '\t' !in EscapeString(quoteAll, value)
  {
    if NeedsQuote(quoteAll, value) {
      var r := EscapeString(quoteAll, value);
      if NeedsDoubleQuote(value) {
        EscapeDoubleIsPerChar(value);
        EscapeBodyOneLine(value);
        assert r == "\"" + EscapeBody(value) + "\"";
      } else {
        SingleKeepsLine(value);
        assert r == "'" + EscapeSingle(value) + "'";
      }
    }
  }

  lemma {:induction false} SingleKeepsLine(value: string)
    requires '\n' !in value && '\r' !in value && '\t' !in value
    ensures '\n' !in EscapeSingle(value) && '\r' !in EscapeSingle(value) && '\t' !in EscapeSingle(value)
    decreases |value|
  {
    if value != [] {
      SingleKeepsLine(value[1..]);
      assert EscapeSingle(value) == (if value[0] == '\'' then "''" else [value[0]]) + EscapeSingle(value[1..]);
    }
  }

  lemma HelloNotBool()
    ensures !BoolLike("hello")
  {
    forall w | w in BoolWords ensures !EqualFold("hello", w) {
      if |w| == 5 {
        assert w == "false";
        assert FoldChar("hello"[0]) != FoldChar(w[0]);
      }
    }
  }

  lemma HelloNoTrigger()
    ensures !NeedsQuote(false, "hello")
  {
    HelloNotBool();
    assert "hello"[0] !in QuoteLeaders;
  }

  /** A plain word is left bare. */
  lemma PlainExample()
    ensures EscapeString(false, "hello") == "hello"
  {
    HelloNoTrigger();
  }

  /** Under the force-quote flag the same word is single-quoted. */
  lemma ForcedExample()
    ensures EscapeString(true, "hello") == "'hello'"
  {
    assert !NeedsDoubleQuote("hello");
    assert ReplaceAll("hello", '\'', "''") == "hello";
  }

  /**
   * A boolean word in any letter case ("Off", "YES", ...) is
   * single-quoted as it is: its characters are letters, so there is no
   * quote to double and no control character to escape.
   */
  lemma BoolLikeQuoted(v: string)
    requires BoolLike(v)
    ensures EscapeString(false, v) == "'" + v + "'"
  {
    var w :| w in BoolWords && EqualFold(v, w);
    forall i | 0 <= i < |v|
      ensures v[i] != '\t' && v[i] != '\n' && v[i] != '\r' && v[i] != '\''
    {
      BoolWordLetters(w, i);
      LetterFold(v[i]);
    }
    assert !NeedsDoubleQuote(v);
    assert '\'' !in v;
    SingleQuotedPlain(false, v);
  }

  lemma BoolWordLetters(w: string, i: int)
    requires w in BoolWords && 0 <= i < |w|
    ensures 'a' <= FoldChar(w[i]) <= 'z'
  {
  }

  /** Only letters fold to a lower-case letter. */
  lemma LetterFold(c: char)
    requires 'a' <= FoldChar(c) <= 'z'
    ensures c != '\t' && c != '\n' && c != '\r' && c != '\''
  {
  }

  /** The empty string is quoted. */
  lemma EmptyExample()
    ensures EscapeString(false, "") == "''"
  {
  }

  /** A triggered string with no quote to double is simply wrapped in single quotes. */
  lemma SingleQuotedPlain(quoteAll: bool, value: string)
    requires NeedsQuote(quoteAll, value) && !NeedsDoubleQuote(value) && '\'' !in value
    ensures EscapeString(quoteAll, value) == "'" + value + "'"
  {
  }

  /** The double-quoted branch writes the character-wise escape between double quotes. */
  lemma DoubleQuotedForm(quoteAll: bool, value: string)
    requires NeedsDoubleQuote(value)
    ensures EscapeString(quoteAll, value) == "\"" + EscapeBody(value) + "\""
  {
    EscapeDoubleIsPerChar(value);
  }

  /** A leading digit forces quoting, so a numeric-looking string stays a string. */
  lemma LeadingDigitQuoted(value: string)
    requires |value| > 0 && '0' <= value[0] <= '9'
    requires !NeedsDoubleQuote(value) && '\'' !in value
    ensures EscapeString(false, value) == "'" + value + "'"
  {
    assert value[0] in QuoteLeaders;
  }

  /** A quote inside a single-quoted scalar is doubled. */
  lemma SingleQuoteExample()
    ensures EscapeString(false, "it's") == "'it''s'"
  {
    assert !NeedsDoubleQuote("it's");
    assert ReplaceAll("s", '\'', "''") == "s";
    assert ReplaceAll("'s", '\'', "''") == "''s";
    assert ReplaceAll("t's", '\'', "''") == "t''s";
    assert ReplaceAll("it's", '\'', "''") == "it''s";
  }

  lemma NewlineBody()
    ensures "\"" + EscapeBody("a\nb") + "\"" == "\"a\\nb\""
  {
    assert "a\nb"[1..] == "\nb";
    assert "\nb"[1..] == "b";
  }

  lemma NewlineTriggers()
    ensures NeedsDoubleQuote("a\nb")
  {
    assert "a\nb"[1] == '\n';
  }

  /** A newline forces the double-quoted form with a backslash escape. */
  lemma DoubleQuoteExample()
    ensures EscapeString(false, "a\nb") == "\"a\\nb\""
  {
    NewlineBody();
    NewlineTriggers();
    DoubleQuotedForm(false, "a\nb");
  }
}
