/**
 XJSON_EscapeString: what it writes, and why the lexer takes it back unchanged.
 */
module JsonEscape {
  import opened JsonGrammar
  import opened JsonLexer

  // XJSON_ValidEscapeLength at the head of a C string.
  function EscapeLength(s: string): (n: nat)
    ensures n <= |s|
  {
    if |s| < 2 || s[0] != '\\' then 0
    else if IsEscapeLetter(s[1]) then 2
    else if s[1] == 'u' && |s| >= 6 && IsHex(s[2]) && IsHex(s[3]) && IsHex(s[4]) && IsHex(s[5]) then 6
    else 0
  }

  const BS := 8 as char
  const FF := 12 as char
  const HEX_DIGITS := "0123456789abcdef"

  function EscapeChar(c: char): (e: string)
  {
    if c == '"' || c == '\\' then ['\\', c]
    else if c == BS then "\\b"
    else if c == FF then "\\f"
    else if c == '\n' then "\\n"
    else if c == '\r' then "\\r"
    else if c == '\t' then "\\t"
    else if c < ' ' then "\\u00" + [HEX_DIGITS[c as int / 16], HEX_DIGITS[c as int % 16]]
    else [c]
  }

  function Escape(s: string): string {
    if s == "" then ""
    else
      var n := EscapeLength(s);
      if n > 0 then s[..n] + Escape(s[n..]) else EscapeChar(s[0]) + Escape(s[1..])
  }

  // ----- the code units that a string body stands for (section 7 of RFC 8259) -----

  function HexValue(c: char): nat
    requires IsHex(c)
  {
    if IsDigit(c) then c as int - '0' as int
    else if 'a' <= c <= 'f' then c as int - 'a' as int + 10
    else c as int - 'A' as int + 10
  }

  function Letter(c: char): int
    requires IsEscapeLetter(c)
  {
    match c
    case 'b' => 8
    case 'f' => 12
    case 'n' => 10
    case 'r' => 13
    case 't' => 9
    case _ => c as int
  }

  // Valid escapes are read as such; any other byte stands for itself.
  function Meaning(s: string): seq<int> {
    if s == "" then []
    else
      match EscapeLength(s)
      case 2 => [Letter(s[1])] + Meaning(s[2..])
      case 6 => [((HexValue(s[2]) * 16 + HexValue(s[3])) * 16 + HexValue(s[4])) * 16 + HexValue(s[5])] + Meaning(s[6..])
      case _ => [s[0] as int] + Meaning(s[1..])
  }

  // One escaped character is one item of a body, whatever follows it.
  lemma EscapeCharItem(c: char, rest: string)
    ensures var e := EscapeChar(c);
            EscapeLength(e + rest) == (if |e| == 1 then 0 else |e|) && (|e| == 1 ==> e == [c] && c >= ' ' && c != '"' && c != '\\') &&
            Meaning(e + rest) == [c as int] + Meaning(rest) && (|e| == 1 || |e| == 2 || |e| == 6)
  {
    hide Meaning, EscapeLength;
    var e := EscapeChar(c);
    assert (e + rest)[|e|..] == rest;
    EscapeCharLength(c, rest);
    if c < ' ' && |e| == 6 { HexDigitValue(c as int / 16); HexDigitValue(c as int % 16); }
    MeaningStep(e + rest);
  }

  lemma EscapeCharLength(c: char, rest: string)
    ensures var e := EscapeChar(c);
            EscapeLength(e + rest) == (if |e| == 1 then 0 else |e|) && (|e| == 1 || |e| == 2 || |e| == 6)
  {
    hide Meaning;
    if c < ' ' && |EscapeChar(c)| == 6 { HexDigitValue(c as int / 16); HexDigitValue(c as int % 16); }
  }

  lemma MeaningStep(s: string)
    requires s != ""
    ensures Meaning(s) ==
            match EscapeLength(s)
            case 2 => [Letter(s[1])] + Meaning(s[2..])
            case 6 => [((HexValue(s[2]) * 16 + HexValue(s[3])) * 16 + HexValue(s[4])) * 16 + HexValue(s[5])] + Meaning(s[6..])
            case _ => [s[0] as int] + Meaning(s[1..])
  {
  }

  lemma HexDigitValue(n: nat)
    requires n < 16
    ensures IsHex(HEX_DIGITS[n]) && HexValue(HEX_DIGITS[n]) == n
  {
  }

  lemma EscapeLengthOfPrefix(s: string, rest: string)
    requires EscapeLength(s) > 0
    ensures EscapeLength(s[..EscapeLength(s)] + rest) == EscapeLength(s)
  {
  }

  // Whatever the bytes, the result is a body that section 7 allows.
  lemma {:induction false} EscapeIsBody(s: string)
    ensures ValidBody(Escape(s))
    decreases |s|
  {
    if s != "" {
      var n := EscapeLength(s);
      if n > 0 {
        EscapeIsBody(s[n..]);
        EscapeLengthOfPrefix(s, Escape(s[n..]));
        ItemThenBody(s[..n], Escape(s[n..]));
      } else {
        EscapeIsBody(s[1..]);
        EscapeCharItem(s[0], Escape(s[1..]));
        ItemThenBody(EscapeChar(s[0]), Escape(s[1..]));
      }
    }
  }

  lemma ItemThenBody(e: string, rest: string)
    requires |e| > 0 && ValidBody(rest)
    requires EscapeLength(e + rest) == |e| || (|e| == 1 && e[0] >= ' ' && e[0] != '"' && e[0] != '\\')
    ensures ValidBody(e + rest)
  {
    assert (e + rest)[|e|..] == rest;
  }

  // Every body the grammar allows is left as it is.
  lemma {:induction false} EscapeIdentity(s: string)
    requires ValidBody(s)
    ensures Escape(s) == s
    decreases |s|
  {
    if s != "" {
      var n := EscapeLength(s);
      var k := if n > 0 then n else 1;
      EscapeIdentity(s[k..]);
      assert s == s[..k] + s[k..];
    }
  }

  lemma EscapeIdempotent(s: string)
    ensures Escape(Escape(s)) == Escape(s)
  {
    EscapeIsBody(s);
    EscapeIdentity(Escape(s));
  }

  // Escaping does not change the code units the body stands for.
  lemma {:induction false} EscapeKeepsMeaning(s: string)
    ensures Meaning(Escape(s)) == Meaning(s)
    decreases |s|
  {
    hide Meaning;
    if s != "" {
      var n := EscapeLength(s);
      MeaningStep(s);
      if n > 0 {
        EscapeKeepsMeaning(s[n..]);
        EscapeLengthOfPrefix(s, Escape(s[n..]));
        var t := s[..n] + Escape(s[n..]);
        assert t[n..] == Escape(s[n..]);
        MeaningStep(t);
      } else {
        EscapeKeepsMeaning(s[1..]);
        EscapeCharItem(s[0], Escape(s[1..]));
      }
    }
  }

  // ParseQuote takes the result whole, up to the quote the writer puts after it.
  lemma EscapeLexes(s: string, before: string, after: string)
    ensures var text := before + "\"" + Escape(s) + "\"" + after;
            ScanString(text, |before| + 1) == Stop(|before| + |Escape(s)| + 2, false)
  {
    EscapeIsBody(s);
    var text := before + "\"" + Escape(s) + "\"" + after;
    hide Escape, ValidBody, LooseBody, ScanString;
    ValidIsLoose(Escape(s));
    assert text[|before| + 1..|before| + |Escape(s)| + 2] == Escape(s) + "\"";
    ScanStringComplete(text, |before| + 1, Escape(s));
  }

  // A body the lexer has accepted is written back byte for byte.
  lemma EscapeOfLexed(text: string, i: nat)
    requires NulFree(text) && i <= |text| && ScanString(text, i).Stop?
    ensures var body := text[i..ScanString(text, i).end - 1]; Escape(body) == body
  {
    hide ValidBody, LooseBody, ScanString, Escape;
    ScanStringSound(text, i);
    ValidIsLoose(text[i..ScanString(text, i).end - 1]);
    EscapeIdentity(text[i..ScanString(text, i).end - 1]);
  }

  // One round of either pass.
  function Piece(s: string, i: nat): string
    requires i < |s|
  {
    var n := EscapeLength(s[i..]);
    if n > 0 then s[i..i + n] else EscapeChar(s[i])
  }

  function Next(s: string, i: nat): (j: nat)
    requires i < |s|
    ensures i < j <= |s|
  {
    var n := EscapeLength(s[i..]);
    if n > 0 then i + n else i + 1
  }

  lemma EscapeStep(s: string, i: nat)
    requires i < |s|
    ensures Escape(s[i..]) == Piece(s, i) + Escape(s[Next(s, i)..])
  {
    var n := EscapeLength(s[i..]);
    assert s[i..][n..] == s[i + n..];
    assert s[i..][..n] == s[i..i + n];
    assert s[i..][1..] == s[i + 1..];
  }

  // The first pass only counts.
  method CountEscaped(s: string) returns (length: nat)
    ensures length == |Escape(s)|
  {
    length := 0;
    var i := 0;
    assert s[0..] == s;
    while i < |s|
      invariant 0 <= i <= |s| && length + |Escape(s[i..])| == |Escape(s)|
    {
      EscapeStep(s, i);
      length := length + |Piece(s, i)|;
      i := Next(s, i);
    }
  }

  method Put(escaped: array<char>, offset: nat, piece: string)
    requires offset + |piece| <= escaped.Length
    modifies escaped
    ensures escaped[..offset + |piece|] == old(escaped[..offset]) + piece
  {
    for k := 0 to |piece|
      invariant escaped[..offset + k] == old(escaped[..offset]) + piece[..k]
    {
      escaped[offset + k] := piece[k];
    }
  }

  // The second pass fills exactly the bytes counted, and the terminator.
  method EscapeString(value: string) returns (escaped: array<char>)
    ensures fresh(escaped) && escaped.Length == |Escape(CString(value))| + 1
    ensures escaped[..escaped.Length - 1] == Escape(CString(value)) && escaped[escaped.Length - 1] == '\0'
  {
    hide *;
    var s := CString(value);
    var length := CountEscaped(s);
    escaped := new char[length + 1];
    var offset, i := 0, 0;
    assert s[0..] == s;
    while i < |s|
      invariant 0 <= i <= |s| && 0 <= offset <= length
      invariant escaped[..offset] + Escape(s[i..]) == Escape(s)
    {
      var piece := Piece(s, i);
      EscapeStep(s, i);
      ghost var before := escaped[..offset];
      ghost var rest := Escape(s[Next(s, i)..]);
      assert before + piece + rest == before + (piece + rest);
      Put(escaped, offset, piece);
      offset := offset + |piece|;
      i := Next(s, i);
    }
    EscapeNothing();
    assert s[i..] == "";
    escaped[offset] := '\0';
  }

  lemma EscapeNothing()
    ensures Escape("") == ""
  {
  }
}
