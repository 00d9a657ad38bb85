/**
 The recursive-descent parser of src/data/json.c: what it computes, as functions that thread
 the lexer state, and the class whose methods move nOffset and lastToken as the source does.
 */
module JsonParser {
  import opened Options
  import opened JsonGrammar
  import opened JsonLexer

  // XJSON_AddObject on a parent that does not allow updates, as every parsed one.
  function AddObject(dst: Json, name: Option<string>, src: Json): (Error, Json) {
    match dst
    case Object(members) =>
      if name.None? then (ERR_INVALID, dst)
      else if name.value in members then (ERR_EXITS, dst)
      else (ERR_NONE, Object(members[name.value := src]))
    case Array(items) => if name.Some? then (ERR_INVALID, dst) else (ERR_NONE, Array(items + [src]))
    case Atom(_, _) => (ERR_INVALID, dst)
  }

  predicate IsItem(k: TokenKind) { k == QUOTE || k == FLOAT || k == BOOL || k == NULL || k == INTEGER }

  function ItemKind(k: TokenKind): Kind
    requires IsItem(k)
  {
    match k
    case QUOTE => Text
    case FLOAT => Float
    case BOOL => Boolean
    case NULL => Kind.Null
    case INTEGER => Number
  }

  // Status, lexer state and the parent value after a parsing step.
  datatype Outcome = Outcome(ok: bool, st: State, tree: Json)

  // A fresh token, as GetNextToken leaves it.
  predicate Fresh(s: string, st: State) {
    st.In(s) && st.token.Width() <= st.offset && st.token.start + st.token.len <= |s|
  }

  function Attach(st: State, parent: Json, name: Option<string>, child: Json): Outcome {
    var (error, tree) := AddObject(parent, name, child);
    Outcome(error == ERR_NONE, st.(error := error), tree)
  }

  // XJSON_PutItem, XJSON_ParseNewObject or XJSON_ParseNewArray, chosen by the last token.
  function Item(s: string, st: State, parent: Json, name: Option<string>): (r: Outcome)
    requires Fresh(s, st)
    ensures r.st.In(s) && (r.ok ==> st.offset <= r.st.offset)
    decreases |s| - st.offset, 3
  {
    if IsItem(st.token.kind) then
      Attach(st, parent, name, Atom(ItemKind(st.token.kind), JsonLexer.Text(s, st.token)))
    else if st.token.kind == LCURLY then
      var sub := ObjectNext(s, st, Object(map[]), true);
      if !sub.ok then sub.(tree := parent)
      else
        var put := Attach(sub.st, parent, name, sub.tree);
        if !put.ok then put
        else var (ok, st') := Expect(s, put.st, RCURLY); Outcome(ok, st', put.tree)
    else if st.token.kind == LSQUARE then
      var sub := ArrayNext(s, st, Array([]), true);
      if !sub.ok then sub.(tree := parent)
      else
        var put := Attach(sub.st, parent, name, sub.tree);
        if !put.ok then put
        else var (ok, st') := Expect(s, put.st, RSQUARE); Outcome(ok, st', put.tree)
    else Outcome(false, Unexpected(st), parent)
  }

  function ArrayNext(s: string, st: State, parent: Json, allowEnd: bool): (r: Outcome)
    requires st.In(s)
    ensures r.st.In(s) && (r.ok ==> st.offset <= r.st.offset < |s| && s[r.st.offset] == ']')
    decreases |s| - st.offset, 1
  {
    hide NextToken, Item;
    var (ok1, st1) := NextToken(s, st);
    if !ok1 then Outcome(false, st1, parent)
    else if st1.token.kind == RSQUARE then
      if allowEnd then Outcome(true, Undo(st1), parent) else Outcome(false, Unexpected(st1), parent)
    else
      var item := Item(s, st1, parent, None);
      if !item.ok then item else ArrayTail(s, item.st, item.tree)
  }

  // After a value: a comma and the next value, or the end.
  function ArrayTail(s: string, st: State, tree: Json): (r: Outcome)
    requires st.In(s)
    ensures r.st.In(s) && (r.ok ==> st.offset <= r.st.offset < |s| && s[r.st.offset] == ']')
    decreases |s| - st.offset, 2
  {
    hide NextToken;
    var (ok2, st2) := NextToken(s, st);
    if !ok2 then Outcome(false, st2, tree)
    else if st2.token.kind == COMMA then ArrayNext(s, st2, tree, false)
    else if st2.token.kind != RSQUARE then Outcome(false, Unexpected(st2), tree)
    else Outcome(true, Undo(st2), tree)
  }

  function Pair(s: string, st: State, parent: Json): (r: Outcome)
    requires Fresh(s, st)
    ensures r.st.In(s) && (r.ok ==> st.offset <= r.st.offset < |s| && s[r.st.offset] == '}')
    decreases |s| - st.offset, 2
  {
    hide NextToken, Expect, Item, CString;
    var name := CString(JsonLexer.Text(s, st.token));
    var (ok1, st1) := Expect(s, st, COLON);
    if !ok1 then Outcome(false, st1, parent)
    else
      var (ok2, st2) := NextToken(s, st1);
      if !ok2 then Outcome(false, st2, parent)
      else
        var item := Item(s, st2, parent, Some(name));
        if !item.ok then item else PairTail(s, item.st, item.tree)
  }

  function PairTail(s: string, st: State, tree: Json): (r: Outcome)
    requires st.In(s)
    ensures r.st.In(s) && (r.ok ==> st.offset <= r.st.offset < |s| && s[r.st.offset] == '}')
    decreases |s| - st.offset, 2
  {
    hide NextToken;
    var (ok3, st3) := NextToken(s, st);
    if !ok3 then Outcome(false, st3, tree)
    else if st3.token.kind == COMMA then ObjectNext(s, st3, tree, false)
    else if st3.token.kind != RCURLY then Outcome(false, Unexpected(st3), tree)
    else Outcome(true, Undo(st3), tree)
  }

  function ObjectNext(s: string, st: State, parent: Json, allowEnd: bool): (r: Outcome)
    requires st.In(s)
    ensures r.st.In(s) && (r.ok ==> st.offset <= r.st.offset < |s| && s[r.st.offset] == '}')
    decreases |s| - st.offset, 1
  {
    var (ok1, st1) := NextToken(s, st);
    if !ok1 then Outcome(false, st1, parent)
    else if st1.token.kind == RCURLY then
      if allowEnd then Outcome(true, Undo(st1), parent) else Outcome(false, Unexpected(st1), parent)
    else if st1.token.kind == QUOTE then Pair(s, st1, parent)
    else if st1.token.kind == EOF then Outcome(false, st1, parent)
    else Outcome(false, Unexpected(st1), parent)
  }

  const START := State(0, BLANK, ERR_NONE)

  // The root value with its closing bracket.
  function Root(s: string): (r: (State, Option<Json>))
    ensures r.0.In(s)
  {
    var (ok, st) := NextToken(s, START);
    if !ok then (st, None)
    else if st.token.kind == LCURLY || st.token.kind == LSQUARE then
      var sub := if st.token.kind == LCURLY then ObjectNext(s, st, Object(map[]), true)
                 else ArrayNext(s, st, Array([]), true);
      if !sub.ok then (sub.st, None)
      else
        var (closed, st') := Expect(s, sub.st, if st.token.kind == LCURLY then RCURLY else RSQUARE);
        (st', if closed then Some(sub.tree) else None)
    else (Unexpected(st), None)
  }

  // XJSON_Parse: the final lexer state and the tree, None when parsing fails.
  function Parse(s: string): (r: (State, Option<Json>))
    ensures r.0.In(s)
    ensures r.1.Some? ==> r.0.offset == |s|
  {
    var (st, tree) := Root(s);
    if tree.None? then (st, None)
    else
      var end := SkipWs(s, st.offset);
      if end < |s| then (st.(offset := end, error := ERR_UNEXPECTED), None)
      else (st.(offset := end), tree)
  }

  // ======================= the parser as it runs =======================

  class Parser {
    const data: string
    var offset: nat
    var token: Token
    var error: Error

    constructor (data: string)
      ensures this.data == data && St() == START
    {
      this.data := data;
      offset, token, error := 0, BLANK, ERR_NONE;
    }

    ghost function St(): State
      reads this
    {
      State(offset, token, error)
    }

    ghost predicate Is(st: State)
      reads this
    {
      offset == st.offset && token == st.token && error == st.error
    }

    method UnexpectedToken()
      requires token.Width() <= offset
      modifies this
      ensures Is(Unexpected(old(St())))
    {
      error := ERR_UNEXPECTED;
      offset := offset - token.len;
      if token.kind == QUOTE { offset := offset - 2; }
    }

    method UnexpectedEOF()
      modifies this
      ensures offset == |data| && error == ERR_BOUNDS && token == old(token)
    {
      error := ERR_BOUNDS;
      offset := |data|;
    }

    method UndoLastToken()
      requires token.len <= offset
      modifies this
      ensures Is(Undo(old(St())))
    {
      offset := offset - token.len;
    }

    method CheckBounds() returns (ok: bool)
      modifies this
      ensures ok == (offset < |data|) && offset == old(offset) && token == old(token)
      ensures error == if ok then old(error) else ERR_BOUNDS
    {
      ok := true;
      if offset >= |data| {
        error := ERR_BOUNDS;
        ok := false;
      }
    }

    method NextChar() returns (ok: bool, c: char)
      requires offset <= |data|
      modifies this
      ensures token == old(token)
      ensures var p := SkipWs(data, old(offset));
              if p == |data| then !ok && offset == p && error == ERR_BOUNDS
              else ok && c == data[p] && offset == p + 1 && error == old(error)
    {
      c := ' ';
      ok := CheckBounds();
      if !ok { return; }
      c := data[offset];
      offset := offset + 1;
      while IsWs(c)
        invariant 0 < offset <= |data| && c == data[offset - 1]
        invariant token == old(token) && error == old(error)
        invariant SkipWs(data, offset - 1) == SkipWs(data, old(offset))
        decreases |data| - offset
      {
        ok := CheckBounds();
        if !ok { return; }
        c := data[offset];
        offset := offset + 1;
      }
      ok := true;
    }

    // The digit loops of ParseDigit.
    method Digits(from: nat) returns (i: nat)
      requires from <= |data|
      ensures i == SkipDigits(data, from)
    {
      i := from;
      while i < |data| && IsDigit(data[i])
        invariant from <= i <= |data| && SkipDigits(data, i) == SkipDigits(data, from)
      {
        i := i + 1;
      }
    }

    // The scanning of ParseDigit moves only a local index; it is cut here before the exponent
    // and before the fraction, each part returning what the whole function goes on to return.
    method ScanExponent(from: nat, isFloat: bool) returns (r: Scan)
      requires from <= |data|
      ensures r == ScanExp(data, from, isFloat)
    {
      var i := from;
      if i < |data| && (data[i] == 'e' || data[i] == 'E') {
        i := i + 1;
        if i < |data| && (data[i] == '+' || data[i] == '-') { i := i + 1; }
        if i >= |data| { return BadEof; }
        if !IsDigit(data[i]) { return BadToken(i); }
        i := Digits(i);
        return Stop(i, true);
      }
      return Stop(i, isFloat);
    }

    method ScanFraction(from: nat) returns (r: Scan)
      requires from <= |data|
      ensures r == ScanFrac(data, from)
    {
      var i := from;
      var isFloat := false;
      if i < |data| && data[i] == '.' {
        isFloat := true;
        i := i + 1;
        if i >= |data| { return BadEof; }
        if !IsDigit(data[i]) { return BadToken(i); }
        i := Digits(i);
      }
      r := ScanExponent(i, isFloat);
    }

    method ScanDigits(start: nat) returns (r: Scan)
      requires start < |data|
      ensures r == ScanNumber(data, start)
    {
      var i := start;
      if data[i] == '-' {
        i := i + 1;
        if i >= |data| { return BadEof; }
      }
      if data[i] == '0' {
        i := i + 1;
        if i < |data| && IsDigit(data[i]) { return BadToken(i); }
      } else if '1' <= data[i] <= '9' {
        i := Digits(i);
      } else {
        return BadToken(i);
      }
      r := ScanFraction(i);
    }

    method ParseDigit() returns (ok: bool)
      requires 0 < offset <= |data| && token == BLANK
      modifies this
      ensures var r := DigitToken(data, old(offset) - 1, old(error)); ok == r.0 && Is(r.1)
    {
      token := token.(kind := INVALID);
      var start := offset - 1;
      var scan := ScanDigits(start);
      match scan {
        case BadToken(_) => UnexpectedToken(); return false;
        case BadEof => UnexpectedEOF(); return false;
        case Stop(end, isFloat) =>
          token := Token(if isFloat then FLOAT else INTEGER, start, end - start);
          offset := end;
          return true;
      }
    }

    // The loop over the four digits of an escape, inside ParseQuote.
    method HexDigits() returns (r: Scan)
      requires offset <= |data|
      modifies this
      ensures r == ScanHex(data, old(offset), 4)
      ensures token == old(token) && error == old(error) && old(offset) <= offset <= |data|
      ensures r.Stop? ==> offset == r.end
      ensures r.BadToken? ==> offset == r.at
    {
      for i := 0 to 4
        invariant offset == old(offset) + i <= |data| && token == old(token) && error == old(error)
        invariant ScanHex(data, offset, 4 - i) == ScanHex(data, old(offset), 4)
      {
        if offset >= |data| { return BadEof; }
        var h := data[offset];
        offset := offset + 1;
        if !IsHex(h) { return BadToken(offset); }
      }
      return Stop(offset, false);
    }

    // The part of ParseQuote's loop that comes after a backslash.
    method SkipEscape() returns (ok: bool)
      requires 0 < offset <= |data| && data[offset - 1] == '\\' && token == BLANK
      modifies this
      ensures token == BLANK
      ensures var scan := ScanString(data, old(offset) - 1);
              if ok then old(offset) < offset <= |data| && error == old(error) && ScanString(data, offset) == scan
              else if scan.BadToken? then offset == scan.at && error == ERR_UNEXPECTED
              else scan.BadEof? && offset == |data| && error == ERR_BOUNDS
    {
      hide ScanHex;
      if offset >= |data| { UnexpectedEOF(); return false; }
      var c := data[offset];
      offset := offset + 1;
      if c == 'u' {
        var hex := HexDigits();
        if hex.BadEof? { UnexpectedEOF(); return false; }
        if hex.BadToken? { UnexpectedToken(); return false; }
      } else if !EscapeOk(c) {
        UnexpectedToken();
        return false;
      }
      ok := true;
    }

    method ParseQuote() returns (ok: bool)
      requires 0 < offset <= |data| && token == BLANK
      modifies this
      ensures var r := QuoteToken(data, old(offset) - 1, old(error)); ok == r.0 && Is(r.1)
    {
      hide ScanHex;
      token := token.(kind := INVALID);
      ok := CheckBounds();
      if !ok { return; }

      var start := offset;
      ghost var scan := ScanString(data, start);
      while offset < |data|
        invariant start <= offset <= |data| && token == BLANK && error == old(error)
        invariant ScanString(data, offset) == scan
      {
        var c := data[offset];
        offset := offset + 1;
        if c == '"' {
          token := Token(QUOTE, start, offset - start - 1);
          return true;
        }
        if c < ' ' { UnexpectedToken(); return false; }
        if c != '\\' { continue; }
        ok := SkipEscape();
        if !ok { return; }
      }
      UnexpectedEOF();
      return false;
    }

    method ParseAlphabet(first: char) returns (ok: bool)
      requires 0 < offset <= |data| && token == BLANK && first == data[offset - 1] && IsAlpha(first)
      modifies this
      ensures var r := AlphabetToken(data, old(offset) - 1, old(error)); ok == r.0 && Is(r.1)
    {
      hide WordKind;
      token := token.(kind := INVALID);
      var position := offset;
      var c := first;
      while IsAlpha(c)
        invariant position <= offset <= |data| && c == data[offset - 1] && token == BLANK && error == old(error)
        invariant offset == position ==> c == first
        invariant offset > position ==> SkipAlpha(data, offset - 1) == SkipAlpha(data, position)
        decreases |data| - offset
      {
        ok := CheckBounds();
        if !ok { return; }
        c := data[offset];
        offset := offset + 1;
      }
      token := Token(INVALID, position - 1, offset - position);
      offset := offset - 1;

      ok := JudgeWord();
    }

    // The end of ParseAlphabet: which word it is.
    method JudgeWord() returns (ok: bool)
      requires token.kind == INVALID && token.len <= offset && token.start + token.len <= |data|
      modifies this
      ensures var was := old(St());
              var kind := WordKind(data[was.token.start..was.token.start + was.token.len]);
              ok == (kind != INVALID) && Is(if ok then was.(token := was.token.(kind := kind)) else Unexpected(was))
    {
      var word := data[token.start..token.start + token.len];
      if token.len == 4 && word == "null" {
        token := token.(kind := NULL);
        return true;
      }
      if (token.len == 4 && word == "true") || (token.len == 5 && word == "false") {
        token := token.(kind := BOOL);
        return true;
      }
      UnexpectedToken();
      return false;
    }

    method GetNextToken() returns (ok: bool)
      requires offset <= |data|
      modifies this
      ensures var r := NextToken(data, old(St())); ok == r.0 && Is(r.1)
    {
      token := BLANK;
      var c;
      ok, c := NextChar();
      if !ok {
        token := token.(kind := EOF);
        return;
      }
      if c == '-' || IsDigit(c) { ok := ParseDigit(); return; }
      else if IsAlpha(c) { ok := ParseAlphabet(c); return; }
      else if c == '"' { ok := ParseQuote(); return; }

      token := Token(INVALID, offset - 1, 1);
      match c {
        case '{' => token := token.(kind := LCURLY);
        case '}' => token := token.(kind := RCURLY);
        case '[' => token := token.(kind := LSQUARE);
        case ']' => token := token.(kind := RSQUARE);
        case ':' => token := token.(kind := COLON);
        case ',' => token := token.(kind := COMMA);
        case _ =>
          if IsEofByte(c) {
            token := Token(EOF, 0, 0);
          } else {
            UnexpectedToken();
            return false;
          }
      }
      return true;
    }

    method ExpectToken(kind: TokenKind) returns (ok: bool)
      requires offset <= |data|
      modifies this
      ensures var r := Expect(data, old(St()), kind); ok == r.0 && Is(r.1)
    {
      ok := GetNextToken();
      if !ok { return; }
      if token.kind == kind { return true; }
      UnexpectedToken();
      return false;
    }

    method PutObject(parent: Json, name: Option<string>, child: Json) returns (ok: bool, tree: Json)
      modifies this
      ensures var r := Attach(old(St()), parent, name, child); ok == r.ok && Is(r.st) && tree == r.tree
    {
      error, tree := AddObject(parent, name, child).0, AddObject(parent, name, child).1;
      ok := error == ERR_NONE;
    }

    method ParseItem(parent: Json, name: Option<string>) returns (ok: bool, tree: Json)
      requires Fresh(data, St())
      modifies this
      ensures var r := Item(data, old(St()), parent, name); ok == r.ok && Is(r.st) && tree == r.tree
      decreases |data| - offset, 3
    {
      var child;
      if IsItem(token.kind) {
        ok, tree := PutObject(parent, name, Atom(ItemKind(token.kind), JsonLexer.Text(data, token)));
      } else if token.kind == LCURLY {
        ok, child := ParseObjectNext(Object(map[]), true);
        if !ok { return false, parent; }
        ok, tree := PutObject(parent, name, child);
        if !ok { return; }
        ok := ExpectToken(RCURLY);
      } else if token.kind == LSQUARE {
        ok, child := ParseArrayNext(Array([]), true);
        if !ok { return false, parent; }
        ok, tree := PutObject(parent, name, child);
        if !ok { return; }
        ok := ExpectToken(RSQUARE);
      } else {
        UnexpectedToken();
        return false, parent;
      }
    }

    method ParseArrayNext(parent: Json, allowEnd: bool) returns (ok: bool, tree: Json)
      requires offset <= |data|
      modifies this
      ensures var r := ArrayNext(data, old(St()), parent, allowEnd); ok == r.ok && Is(r.st) && tree == r.tree
      decreases |data| - offset, 1
    {
      tree := parent;
      ok := GetNextToken();
      if !ok { return; }

      if token.kind == RSQUARE {
        if allowEnd { UndoLastToken(); return true, tree; }
        UnexpectedToken();
        return false, tree;
      }
      ok, tree := ParseItem(tree, None);
      if !ok { return; }

      ok := GetNextToken();
      if !ok { return; }
      if token.kind == COMMA {
        ok, tree := ParseArrayNext(tree, false);
      } else if token.kind != RSQUARE {
        UnexpectedToken();
        ok := false;
      } else {
        UndoLastToken();
      }
    }

    method ParsePair(parent: Json) returns (ok: bool, tree: Json)
      requires Fresh(data, St())
      modifies this
      ensures var r := Pair(data, old(St()), parent); ok == r.ok && Is(r.st) && tree == r.tree
      decreases |data| - offset, 2
    {
      tree := parent;
      var name := CString(JsonLexer.Text(data, token));
      ok := ExpectToken(COLON);
      if !ok { return; }
      ok := GetNextToken();
      if !ok { return; }
      ok, tree := ParseItem(tree, Some(name));
      if !ok { return; }

      ok := GetNextToken();
      if !ok { return; }
      if token.kind == COMMA {
        ok, tree := ParseObjectNext(tree, false);
      } else if token.kind != RCURLY {
        UnexpectedToken();
        ok := false;
      } else {
        UndoLastToken();
      }
    }

    method ParseObjectNext(parent: Json, allowEnd: bool) returns (ok: bool, tree: Json)
      requires offset <= |data|
      modifies this
      ensures var r := ObjectNext(data, old(St()), parent, allowEnd); ok == r.ok && Is(r.st) && tree == r.tree
      decreases |data| - offset, 1
    {
      tree := parent;
      ok := GetNextToken();
      if !ok { return; }

      if token.kind == RCURLY {
        if allowEnd { UndoLastToken(); return true, tree; }
        UnexpectedToken();
        return false, tree;
      } else if token.kind == QUOTE {
        ok, tree := ParsePair(tree);
        return;
      } else if token.kind == EOF {
        return false, tree;
      }
      UnexpectedToken();
      return false, tree;
    }

    // XJSON_Parse on a state that XJSON_Init has just set up.
    // XJSON_Parse up to the end of the root value.
    method ParseRoot() returns (root: Option<Json>)
      requires Is(START)
      modifies this
      ensures var r := Root(data); root == r.1 && Is(r.0)
    {
      root := None;
      var ok := GetNextToken();
      if !ok { return; }

      var tree;
      if token.kind == LCURLY {
        ok, tree := ParseObjectNext(Object(map[]), true);
        if ok { ok := ExpectToken(RCURLY); }
      } else if token.kind == LSQUARE {
        ok, tree := ParseArrayNext(Array([]), true);
        if ok { ok := ExpectToken(RSQUARE); }
      } else {
        UnexpectedToken();
        return;
      }
      if ok { root := Some(tree); }
    }

    method ParseText() returns (root: Option<Json>)
      requires Is(START)
      modifies this
      ensures var r := Parse(data); root == r.1 && Is(r.0)
    {
      hide Root;
      var tree := ParseRoot();
      if tree == None { return None; }
      ghost var end := SkipWs(data, offset);
      while offset < |data|
        invariant offset <= end && SkipWs(data, offset) == end
        invariant token == Root(data).0.token && error == Root(data).0.error
      {
        if !IsWs(data[offset]) {
          error := ERR_UNEXPECTED;
          return None;
        }
        offset := offset + 1;
      }
      root := tree;
    }
  }
}
