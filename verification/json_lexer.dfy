/**
 The lexical analyzer of the JSON parser as functions on the input and the lexer state,
 and what each of them accepts, in terms of the grammar.
 */
module JsonLexer {
  import opened JsonGrammar

  datatype TokenKind =
    | INVALID | COMMA | COLON | QUOTE | LCURLY | RCURLY | LSQUARE | RSQUARE
    | INTEGER | FLOAT | BOOL | NULL | EOF

  // pData of the source's token is the index `start` into the input.
  datatype Token = Token(kind: TokenKind, start: nat, len: nat) {
    // How far UnexpectedToken moves the offset back.
    function Width(): nat { len + if kind == QUOTE then 2 else 0 }
  }

  datatype Error = ERR_NONE | ERR_UNEXPECTED | ERR_INVALID | ERR_BOUNDS | ERR_EXITS

  // The fields of xjson_t that change while parsing.
  datatype State = State(offset: nat, token: Token, error: Error) {
    predicate In(s: string) { offset <= |s| }
  }

  const BLANK := Token(INVALID, 0, 0)

  function Text(s: string, t: Token): string
    requires t.start + t.len <= |s|
  {
    s[t.start..t.start + t.len]
  }

  function Unexpected(st: State): State
    requires st.token.Width() <= st.offset
  {
    State(st.offset - st.token.Width(), st.token, ERR_UNEXPECTED)
  }

  function Undo(st: State): State
    requires st.token.len <= st.offset
  {
    st.(offset := st.offset - st.token.len)
  }

  // ----- scanning functions, characterized by their ensures -----

  function SkipWs(s: string, i: nat): (j: nat)
    requires i <= |s|
    ensures i <= j <= |s| && (forall k | i <= k < j :: IsWs(s[k])) && (j < |s| ==> !IsWs(s[j]))
    decreases |s| - i
  {
    if i < |s| && IsWs(s[i]) then SkipWs(s, i + 1) else i
  }

  function SkipDigits(s: string, i: nat): (j: nat)
    requires i <= |s|
    ensures i <= j <= |s| && (forall k | i <= k < j :: IsDigit(s[k])) && (j < |s| ==> !IsDigit(s[j]))
    decreases |s| - i
  {
    if i < |s| && IsDigit(s[i]) then SkipDigits(s, i + 1) else i
  }

  function SkipAlpha(s: string, i: nat): (j: nat)
    requires i <= |s|
    ensures i <= j <= |s| && (forall k | i <= k < j :: IsAlpha(s[k])) && (j < |s| ==> !IsAlpha(s[j]))
    decreases |s| - i
  {
    if i < |s| && IsAlpha(s[i]) then SkipAlpha(s, i + 1) else i
  }

  // ----- numbers (XJSON_ParseDigit) -----

  datatype Scan = Stop(end: nat, isFloat: bool) | BadToken(at: nat) | BadEof

  predicate DigitAt(s: string, i: nat) { i < |s| && IsDigit(s[i]) }

  function ScanExp(s: string, i: nat, isFloat: bool): (r: Scan)
    requires i <= |s|
    ensures r.Stop? ==> i <= r.end <= |s|
  {
    if i < |s| && (s[i] == 'e' || s[i] == 'E') then
      var k := if i + 1 < |s| && (s[i + 1] == '+' || s[i + 1] == '-') then i + 2 else i + 1;
      if k >= |s| then BadEof
      else if !IsDigit(s[k]) then BadToken(k)
      else Stop(SkipDigits(s, k), true)
    else Stop(i, isFloat)
  }

  function ScanFrac(s: string, i: nat): (r: Scan)
    requires i <= |s|
    ensures r.Stop? ==> i <= r.end <= |s|
  {
    if i < |s| && s[i] == '.' then
      if i + 1 >= |s| then BadEof
      else if !IsDigit(s[i + 1]) then BadToken(i + 1)
      else ScanExp(s, SkipDigits(s, i + 1), true)
    else ScanExp(s, i, false)
  }

  function ScanWhole(s: string, i: nat): (r: Scan)
    requires i < |s|
    ensures r.Stop? ==> i < r.end <= |s|
  {
    if s[i] == '0' then if DigitAt(s, i + 1) then BadToken(i + 1) else ScanFrac(s, i + 1)
    else if '1' <= s[i] <= '9' then ScanFrac(s, SkipDigits(s, i))
    else BadToken(i)
  }

  function ScanNumber(s: string, start: nat): (r: Scan)
    requires start < |s|
    ensures r.Stop? ==> start < r.end <= |s|
  {
    if s[start] != '-' then ScanWhole(s, start)
    else if start + 1 >= |s| then BadEof
    else ScanWhole(s, start + 1)
  }

  // ----- strings (XJSON_ParseQuote), from the byte after the opening quote -----

  // `at` of BadToken is the offset after the offending byte.
  // strchr also finds the terminator of its set, so a NUL after a backslash is let through.
  predicate EscapeOk(c: char) { IsEscapeLetter(c) || c == '\0' }

  function ScanHex(s: string, i: nat, left: nat): (r: Scan)
    ensures r.Stop? ==> r.end == i + left <= |s|
    ensures r.BadToken? ==> i < r.at <= |s|
    decreases left
  {
    if left == 0 then if i <= |s| then Stop(i, false) else BadEof
    else if i >= |s| then BadEof
    else if !IsHex(s[i]) then BadToken(i + 1)
    else ScanHex(s, i + 1, left - 1)
  }

  function ScanString(s: string, i: nat): (r: Scan)
    requires i <= |s|
    ensures r.Stop? ==> i < r.end <= |s| && s[r.end - 1] == '"'
    ensures r.BadToken? ==> i < r.at <= |s|
    decreases |s| - i
  {
    if i >= |s| then BadEof
    else if s[i] == '"' then Stop(i + 1, false)
    else if s[i] < ' ' then BadToken(i + 1)
    else if s[i] != '\\' then ScanString(s, i + 1)
    else if i + 1 >= |s| then BadEof
    else if s[i + 1] == 'u' then
      var h := ScanHex(s, i + 2, 4);
      if h.Stop? then ScanString(s, i + 6) else h
    else if !EscapeOk(s[i + 1]) then BadToken(i + 2)
    else ScanString(s, i + 2)
  }

  // ----- XJSON_GetNextToken -----

  function Punctuation(c: char): TokenKind {
    match c
    case '{' => LCURLY
    case '}' => RCURLY
    case '[' => LSQUARE
    case ']' => RSQUARE
    case ':' => COLON
    case ',' => COMMA
    case _ => INVALID
  }

  predicate Structural(k: TokenKind) {
    k == COMMA || k == COLON || k == LCURLY || k == RCURLY || k == LSQUARE || k == RSQUARE
  }

  // The byte 0xFF is EOF once it is a signed char.
  predicate IsEofByte(c: char) { c == '\0' || c as int == 255 }

  function WordKind(word: string): TokenKind {
    if word == "null" then NULL else if word == "true" || word == "false" then BOOL else INVALID
  }

  function DigitToken(s: string, p: nat, error: Error): (bool, State)
    requires p < |s|
  {
    match ScanNumber(s, p)
    case Stop(j, isFloat) => (true, State(j, Token(if isFloat then FLOAT else INTEGER, p, j - p), error))
    case BadToken(_) => (false, State(p + 1, BLANK, ERR_UNEXPECTED))
    case BadEof => (false, State(|s|, BLANK, ERR_BOUNDS))
  }

  function AlphabetToken(s: string, p: nat, error: Error): (bool, State)
    requires p < |s|
  {
    var j := SkipAlpha(s, p + 1);
    if j == |s| then (false, State(j, BLANK, ERR_BOUNDS))
    else
      var kind := WordKind(s[p..j]);
      if kind != INVALID then (true, State(j, Token(kind, p, j - p), error))
      else (false, State(p, Token(INVALID, p, j - p), ERR_UNEXPECTED))
  }

  function QuoteToken(s: string, p: nat, error: Error): (bool, State)
    requires p < |s|
  {
    match ScanString(s, p + 1)
    case Stop(j, _) => (true, State(j, Token(QUOTE, p + 1, j - p - 2), error))
    case BadToken(at) => (false, State(at, BLANK, ERR_UNEXPECTED))
    case BadEof => (false, State(|s|, BLANK, ERR_BOUNDS))
  }

  function NextToken(s: string, st: State): (r: (bool, State))
    requires st.In(s)
    ensures r.1.In(s)
    ensures r.0 ==> st.offset < r.1.offset && r.1.token.start + r.1.token.len <= r.1.offset
    ensures r.0 ==> r.1.token.Width() <= r.1.offset - st.offset
    ensures r.0 && Structural(r.1.token.kind) ==>
              r.1.token.len == 1 && Punctuation(s[r.1.offset - 1]) == r.1.token.kind
  {
    var p := SkipWs(s, st.offset);
    if p == |s| then (false, State(p, Token(EOF, 0, 0), ERR_BOUNDS))
    else if s[p] == '-' || IsDigit(s[p]) then DigitToken(s, p, st.error)
    else if IsAlpha(s[p]) then AlphabetToken(s, p, st.error)
    else if s[p] == '"' then QuoteToken(s, p, st.error)
    else if IsEofByte(s[p]) then (true, State(p + 1, Token(EOF, 0, 0), st.error))
    else if Punctuation(s[p]) != INVALID then (true, State(p + 1, Token(Punctuation(s[p]), p, 1), st.error))
    else (false, State(p, Token(INVALID, p, 1), ERR_UNEXPECTED))
  }

  function Expect(s: string, st: State, kind: TokenKind): (r: (bool, State))
    requires st.In(s)
    ensures r.1.In(s)
    ensures r.0 ==> st.offset < r.1.offset && NextToken(s, st) == r && r.1.token.kind == kind
  {
    var n := NextToken(s, st);
    if n.0 && n.1.token.kind != kind then (false, Unexpected(n.1)) else n
  }

  // ======================= lexer against grammar =======================

  // `t` stands in `s` at index `i`.
  predicate At(s: string, i: nat, t: string) { i + |t| <= |s| && s[i..i + |t|] == t }

  lemma AtConcat(s: string, i: nat, a: string, b: string)
    ensures At(s, i, a + b) <==> At(s, i, a) && At(s, i + |a|, b)
  {
    if At(s, i, a + b) {
      assert s[i..i + |a|] == (a + b)[..|a|];
      assert s[i + |a|..i + |a| + |b|] == (a + b)[|a|..];
    }
    if At(s, i, a) && At(s, i + |a|, b) {
      assert s[i..i + |a| + |b|] == s[i..i + |a|] + s[i + |a|..i + |a| + |b|];
    }
  }

  lemma Glue(s: string, a: nat, b: nat, c: nat)
    requires a <= b <= c <= |s|
    ensures s[a..b] + s[b..c] == s[a..c]
  {
  }

  lemma AtChar(s: string, i: nat, t: string, k: nat)
    requires At(s, i, t) && k < |t|
    ensures i + k < |s| && s[i + k] == t[k]
  {
    assert s[i..i + |t|][k] == s[i + k];
  }

  lemma AtChars(s: string, i: nat, t: string)
    requires At(s, i, t)
    ensures forall k | i <= k < i + |t| :: s[k] == t[k - i]
  {
    forall k | i <= k < i + |t| ensures s[k] == t[k - i] { AtChar(s, i, t, k - i); }
  }

  // A scan stops exactly after a run of its class that is followed by something else.
  lemma SkipWsStops(s: string, i: nat, t: string)
    requires At(s, i, t) && AllWs(t)
    requires i + |t| < |s| ==> !IsWs(s[i + |t|])
    ensures SkipWs(s, i) == i + |t|
  {
    AtChars(s, i, t);
  }

  lemma SkipDigitsStops(s: string, i: nat, t: string)
    requires At(s, i, t) && AllDigits(t)
    requires i + |t| < |s| ==> !IsDigit(s[i + |t|])
    ensures SkipDigits(s, i) == i + |t|
  {
    AtChars(s, i, t);
  }

  lemma SkipAlphaStops(s: string, i: nat, t: string)
    requires At(s, i, t) && (forall k | 0 <= k < |t| :: IsAlpha(t[k]))
    requires i + |t| < |s| ==> !IsAlpha(s[i + |t|])
    ensures SkipAlpha(s, i) == i + |t|
  {
    AtChars(s, i, t);
  }

  // ----- numbers -----

  // A number must not run into one of these.
  predicate ContinuesNumber(c: char) { IsDigit(c) || c == '.' || c == 'e' || c == 'E' }

  // What ScanNumber accepts splits into the parts of section 6.
  lemma ScanExpSound(s: string, i: nat, isFloat: bool) returns (exp: string)
    requires i <= |s| && ScanExp(s, i, isFloat).Stop?
    ensures var r := ScanExp(s, i, isFloat);
            s[i..r.end] == exp && ValidExp(exp) && r.isFloat == (isFloat || exp != "")
  {
    var r := ScanExp(s, i, isFloat);
    exp := s[i..r.end];
    if exp != "" {
      var k := if |exp| >= 2 && (exp[1] == '+' || exp[1] == '-') then 2 else 1;
      assert exp[k..] == s[i + k..r.end];
    }
  }

  lemma ScanFracSound(s: string, i: nat) returns (frac: string, exp: string)
    requires i <= |s| && ScanFrac(s, i).Stop?
    ensures var r := ScanFrac(s, i);
            s[i..r.end] == frac + exp && ValidFrac(frac) && ValidExp(exp) && r.isFloat == (frac + exp != "")
  {
    if i < |s| && s[i] == '.' {
      var j := SkipDigits(s, i + 1);
      exp := ScanExpSound(s, j, true);
      frac := s[i..j];
      assert frac[1..] == s[i + 1..j];
      assert s[i..ScanFrac(s, i).end] == s[i..j] + s[j..ScanFrac(s, i).end];
    } else {
      frac := "";
      exp := ScanExpSound(s, i, false);
    }
  }

  lemma ScanWholeSound(s: string, i: nat) returns (whole: string, frac: string, exp: string)
    requires i < |s| && ScanWhole(s, i).Stop?
    ensures var r := ScanWhole(s, i);
            s[i..r.end] == whole + (frac + exp) && ValidInt(whole) && ValidFrac(frac) && ValidExp(exp) &&
            r.isFloat == (frac + exp != "")
  {
    var j := if s[i] == '0' then i + 1 else SkipDigits(s, i);
    whole := s[i..j];
    frac, exp := ScanFracSound(s, j);
    Glue(s, i, j, ScanWhole(s, i).end);
  }

  lemma ScanNumberSound(s: string, start: nat) returns (c: Cst)
    requires start < |s| && ScanNumber(s, start).Stop?
    ensures var r := ScanNumber(s, start);
            c.Num? && Valid(c) && Print(c) == s[start..r.end] && (r.isFloat <==> c.frac != "" || c.exp != "")
  {
    hide ScanWhole, ValidInt, ValidFrac, ValidExp;
    if s[start] == '-' {
      var whole, frac, exp := ScanWholeSound(s, start + 1);
      c := Num("-", whole, frac, exp);
      assert s[start..start + 1] == "-";
      Glue(s, start, start + 1, ScanNumber(s, start).end);
      assert Print(c) == c.minus + (whole + (frac + exp));
    } else {
      var whole, frac, exp := ScanWholeSound(s, start);
      c := Num("", whole, frac, exp);
      assert Print(c) == whole + (frac + exp);
    }
  }

  // And every number of section 6 is accepted whole when nothing continues it.
  lemma ScanExpComplete(s: string, i: nat, exp: string, isFloat: bool)
    requires At(s, i, exp) && ValidExp(exp)
    requires i + |exp| < |s| ==> !ContinuesNumber(s[i + |exp|])
    ensures ScanExp(s, i, isFloat) == Stop(i + |exp|, isFloat || exp != "")
  {
    if exp != "" {
      AtChar(s, i, exp, 0);
      var k := if |exp| >= 2 && (exp[1] == '+' || exp[1] == '-') then 2 else 1;
      AtChar(s, i, exp, 1);
      DigitsAfter(s, i, exp, k);
    }
  }

  lemma ScanFracComplete(s: string, i: nat, frac: string, exp: string)
    requires At(s, i, frac) && At(s, i + |frac|, exp) && ValidFrac(frac) && ValidExp(exp)
    requires i + |frac| + |exp| < |s| ==> !ContinuesNumber(s[i + |frac| + |exp|])
    ensures ScanFrac(s, i) == Stop(i + |frac| + |exp|, frac != "" || exp != "")
  {
    hide ScanExp;
    ScanExpComplete(s, i + |frac|, exp, frac != "");
    if exp != "" { AtChar(s, i + |frac|, exp, 0); }
    if frac != "" {
      AtChar(s, i, frac, 0);
      AtChar(s, i, frac, 1);
      DigitsAfter(s, i, frac, 1);
    }
  }

  // The digits of `t` from `k` on are skipped.
  lemma DigitsAfter(s: string, i: nat, t: string, k: nat)
    requires At(s, i, t) && k < |t| && AllDigits(t[k..]) && (i + |t| < |s| ==> !IsDigit(s[i + |t|]))
    ensures SkipDigits(s, i + k) == i + |t| && IsDigit(s[i + k])
  {
    assert t == t[..k] + t[k..];
    AtConcat(s, i, t[..k], t[k..]);
    SkipDigitsStops(s, i + k, t[k..]);
    AtChar(s, i + k, t[k..], 0);
  }

  lemma NumParts(s: string, start: nat, c: Cst)
    requires c.Num? && At(s, start, Print(c))
    ensures At(s, start, c.minus) && At(s, start + |c.minus|, c.whole)
    ensures At(s, start + |c.minus| + |c.whole|, c.frac)
    ensures At(s, start + |c.minus| + |c.whole| + |c.frac|, c.exp)
    ensures |Print(c)| == |c.minus| + |c.whole| + |c.frac| + |c.exp|
  {
    hide At;
    AtConcat(s, start, c.minus + c.whole + c.frac, c.exp);
    AtConcat(s, start, c.minus + c.whole, c.frac);
    AtConcat(s, start, c.minus, c.whole);
  }

  lemma ScanWholeStops(s: string, i: nat, whole: string)
    requires At(s, i, whole) && ValidInt(whole)
    requires i + |whole| < |s| ==> !IsDigit(s[i + |whole|])
    ensures i < |s| && ScanWhole(s, i) == ScanFrac(s, i + |whole|)
  {
    AtChar(s, i, whole, 0);
    if whole[0] == '0' {
      assert |whole| == 1;
    } else {
      SkipDigitsStops(s, i, whole);
    }
  }

  lemma ScanWholeComplete(s: string, i: nat, whole: string, frac: string, exp: string)
    requires At(s, i, whole) && At(s, i + |whole|, frac) && At(s, i + |whole| + |frac|, exp)
    requires ValidInt(whole) && ValidFrac(frac) && ValidExp(exp)
    requires var e := i + |whole| + |frac| + |exp|; e < |s| ==> !ContinuesNumber(s[e])
    ensures i < |s| && ScanWhole(s, i) == Stop(i + |whole| + |frac| + |exp|, frac != "" || exp != "")
  {
    hide At, ValidInt, ScanWhole, ScanFrac;
    var j := i + |whole|;
    assert j < |s| ==> !IsDigit(s[j]) by {
      if frac != "" { AtChar(s, j, frac, 0); }
      else if exp != "" { AtChar(s, j, exp, 0); }
    }
    ScanWholeStops(s, i, whole);
    ScanFracComplete(s, j, frac, exp);
  }

  lemma SignedWhole(s: string, start: nat, minus: string, whole: string)
    requires At(s, start, minus) && At(s, start + |minus|, whole) && (minus == "" || minus == "-") && ValidInt(whole)
    ensures start < |s| && (s[start] == '-' || IsDigit(s[start])) && ScanNumber(s, start) == ScanWhole(s, start + |minus|)
  {
    hide ScanWhole, At;
    AtChar(s, start + |minus|, whole, 0);
    if minus != "" { AtChar(s, start, minus, 0); }
  }

  lemma ScanNumberComplete(s: string, start: nat, c: Cst)
    requires c.Num? && Valid(c) && At(s, start, Print(c))
    requires start + |Print(c)| < |s| ==> !ContinuesNumber(s[start + |Print(c)|])
    ensures start < |s| && (s[start] == '-' || IsDigit(s[start]))
    ensures ScanNumber(s, start) == Stop(start + |Print(c)|, c.frac != "" || c.exp != "")
  {
    hide ScanNumber, ScanWhole, ValidInt, ValidFrac, ValidExp, At, ContinuesNumber;
    NumParts(s, start, c);
    hide Print;
    SignedWhole(s, start, c.minus, c.whole);
    ScanWholeComplete(s, start + |c.minus|, c.whole, c.frac, c.exp);
  }

  // ----- strings -----

  // A character or an escape before a body.
  lemma LooseFront(s: string, i: nat, k: nat, j: nat)
    requires i < k <= j <= |s| && LooseBody(s[k..j])
    requires if s[i] != '\\' then k == i + 1 && s[i] >= ' ' && s[i] != '"'
             else if k == i + 2 then EscapeOk(s[i + 1])
             else k == i + 6 && s[i + 1] == 'u' && IsHex(s[i + 2]) && IsHex(s[i + 3]) && IsHex(s[i + 4]) && IsHex(s[i + 5])
    ensures LooseBody(s[i..j])
  {
    hide IsHex;
    var body := s[i..j];
    assert body[k - i..] == s[k..j];
    if k == i + 1 {
      assert body[0] == s[i] && body[1..] == s[k..j];
    } else if k == i + 2 {
      assert body[0] == s[i] && body[1] == s[i + 1] && body[2..] == s[k..j];
    } else {
      assert body[0] == s[i] && body[1] == s[i + 1] && body[6..] == s[k..j];
      assert IsHex(body[2]) && IsHex(body[3]) && IsHex(body[4]) && IsHex(body[5]);
    }
  }

  lemma {:induction false} ScanStringSound(s: string, i: nat)
    requires i <= |s| && ScanString(s, i).Stop?
    ensures LooseBody(s[i..ScanString(s, i).end - 1])
    decreases |s| - i
  {
    hide ScanHex, IsHex, EscapeOk;
    var j := ScanString(s, i).end - 1;
    if s[i] == '"' {
      assert s[i..j] == "";
    } else {
      hide LooseBody;
      var k := if s[i] != '\\' then i + 1 else if s[i + 1] == 'u' then i + 6 else i + 2;
      ScanStringSound(s, k);
      if s[i] == '\\' && s[i + 1] == 'u' { ScanHexSound(s, i + 2); }
      LooseFront(s, i, k, j);
    }
  }

  lemma ScanHexSound(s: string, i: nat)
    ensures ScanHex(s, i, 4).Stop? <==>
              i + 4 <= |s| && IsHex(s[i]) && IsHex(s[i + 1]) && IsHex(s[i + 2]) && IsHex(s[i + 3])
  {
    assert ScanHex(s, i + 4, 0).Stop? <==> i + 4 <= |s|;
    assert ScanHex(s, i + 3, 1).Stop? <==> i + 4 <= |s| && IsHex(s[i + 3]);
    assert ScanHex(s, i + 2, 2).Stop? <==> i + 4 <= |s| && IsHex(s[i + 2]) && IsHex(s[i + 3]);
  }

  // A body followed by a quote is accepted whole, up to that quote.
  lemma {:induction false} ScanStringComplete(s: string, i: nat, body: string)
    requires LooseBody(body) && At(s, i, body + "\"")
    ensures ScanString(s, i) == Stop(i + |body| + 1, false)
    decreases |body|
  {
    var t := body + "\"";
    AtChar(s, i, t, 0);
    if body != "" {
      var k := if body[0] != '\\' then 1 else if EscapeOk(body[1]) then 2 else 6;
      assert t == t[..k] + (body[k..] + "\"");
      AtConcat(s, i, t[..k], body[k..] + "\"");
      ScanStringComplete(s, i + k, body[k..]);
      if k >= 2 { AtChar(s, i, t, 1); }
      if k == 6 {
        AtChar(s, i, t, 2); AtChar(s, i, t, 3); AtChar(s, i, t, 4); AtChar(s, i, t, 5);
        ScanHexSound(s, i + 2);
      }
    }
  }
}
