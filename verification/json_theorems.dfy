/**
 The parser accepts exactly the grammar, and what it returns is the tree of the derivation.
 */
module JsonTheorems {
  import opened Options
  import opened JsonGrammar
  import opened JsonLexer
  import opened JsonParser

  // Where the text of a token begins: a quoted one starts before its body.
  function Begin(t: Token): nat
    requires t.kind == QUOTE ==> t.start > 0
  {
    if t.kind == QUOTE then t.start - 1 else t.start
  }

  // ======================= soundness =======================

  // A token is preceded by whitespace only, and lies between there and the new offset.
  lemma TokenSpan(s: string, st: State)
    requires st.In(s) && NextToken(s, st).0 && NextToken(s, st).1.token.kind != EOF
    ensures var st1 := NextToken(s, st).1;
            Fresh(s, st1) && (st1.token.kind == QUOTE ==> st1.token.start > 0) &&
            st.offset <= Begin(st1.token) < st1.offset && AllWs(s[st.offset..Begin(st1.token)])
    ensures var st1 := NextToken(s, st).1;
            Structural(st1.token.kind) ==>
              Begin(st1.token) + 1 == st1.offset
    ensures var st1 := NextToken(s, st).1;
            Begin(st1.token) == SkipWs(s, st.offset)
  {
    hide SkipAlpha, ScanNumber, ScanString, SkipWs;
  }

  // NextToken goes by the first character after the blanks.
  lemma Dispatch(s: string, st: State)
    requires st.In(s) && SkipWs(s, st.offset) < |s|
    ensures var p := SkipWs(s, st.offset);
            (s[p] == '-' || IsDigit(s[p]) ==> NextToken(s, st) == DigitToken(s, p, st.error)) &&
            (IsAlpha(s[p]) ==> NextToken(s, st) == AlphabetToken(s, p, st.error)) &&
            (s[p] == '"' ==> NextToken(s, st) == QuoteToken(s, p, st.error))
  {
    hide SkipWs, DigitToken, AlphabetToken, QuoteToken;
  }

  lemma ItemStarts(s: string, st: State)
    requires st.In(s) && NextToken(s, st).0 && IsItem(NextToken(s, st).1.token.kind)
    ensures var p := SkipWs(s, st.offset);
            p < |s| && (s[p] == '-' || IsDigit(s[p]) || IsAlpha(s[p]) || s[p] == '"')
  {
    hide SkipWs, DigitToken, AlphabetToken, QuoteToken;
  }

  // The token just read is an item that starts at p, and c is a tree of its text.
  ghost predicate Denotes(s: string, p: nat, st1: State, c: Cst) {
    && Fresh(s, st1) && IsItem(st1.token.kind) && (st1.token.kind == QUOTE ==> st1.token.start > 0)
    && Begin(st1.token) == p <= st1.offset
    && Valid(c) && Distinct(c) && Print(c) == s[p..st1.offset]
    && Tree(c) == Atom(ItemKind(st1.token.kind), JsonLexer.Text(s, st1.token))
  }

  lemma NumSound(s: string, p: nat, error: Error) returns (c: Cst)
    requires p < |s| && DigitToken(s, p, error).0
    ensures Denotes(s, p, DigitToken(s, p, error).1, c)
  {
    hide ScanNumber, Print, Valid;
    c := ScanNumberSound(s, p);
    assert Tree(c) == Atom(if c.frac != "" || c.exp != "" then Float else Number, Print(c));
  }

  lemma WordSound(s: string, p: nat, error: Error) returns (c: Cst)
    requires p < |s| && AlphabetToken(s, p, error).0
    ensures Denotes(s, p, AlphabetToken(s, p, error).1, c)
  {
    c := Word(s[p..SkipAlpha(s, p + 1)]);
  }

  lemma QuoteSound(s: string, p: nat, error: Error) returns (c: Cst)
    requires p < |s| && s[p] == '"' && QuoteToken(s, p, error).0
    ensures Denotes(s, p, QuoteToken(s, p, error).1, c) && QuoteToken(s, p, error).1.token.kind == QUOTE
  {
    ScanStringSound(s, p + 1);
    hide ScanString, LooseBody;
    var j := ScanString(s, p + 1).end;
    c := Str(s[p + 1..j - 1]);
    QuotedText(s, p, j);
    hide Print;
  }

  lemma QuotedText(s: string, p: nat, j: nat)
    requires p + 1 < j <= |s| && s[p] == '"' && s[j - 1] == '"'
    ensures Print(Str(s[p + 1..j - 1])) == s[p..j]
  {
    Cut3(s, p, p + 1, j - 1, j);
    assert s[p..p + 1] == "\"" == s[j - 1..j];
  }

  // An item token is a number, string or literal of the grammar.
  lemma AtomSound(s: string, st: State) returns (c: Cst)
    requires st.In(s) && NextToken(s, st).0
    requires var k := NextToken(s, st).1.token.kind; IsItem(k)
    ensures Denotes(s, SkipWs(s, st.offset), NextToken(s, st).1, c)
  {
    hide NextToken, SkipWs, DigitToken, AlphabetToken, QuoteToken, Denotes, Valid, Distinct, Print, Tree;
    ItemStarts(s, st);
    Dispatch(s, st);
    var p := SkipWs(s, st.offset);
    if s[p] == '-' || IsDigit(s[p]) {
      c := NumSound(s, p, st.error);
    } else if IsAlpha(s[p]) {
      c := WordSound(s, p, st.error);
    } else {
      c := QuoteSound(s, p, st.error);
    }
  }

  // s[a..d] cut at b and c.
  lemma Cut3(s: string, a: nat, b: nat, c: nat, d: nat)
    requires a <= b <= c <= d <= |s|
    ensures s[a..d] == s[a..b] + s[b..c] + s[c..d]
  {
  }

  lemma Brackets(c: char)
    ensures (Punctuation(c) == LSQUARE <==> c == '[') && (Punctuation(c) == RSQUARE <==> c == ']')
    ensures (Punctuation(c) == LCURLY <==> c == '{') && (Punctuation(c) == RCURLY <==> c == '}')
    ensures (Punctuation(c) == COMMA <==> c == ',') && (Punctuation(c) == COLON <==> c == ':')
  {
  }

  // The three forms of a value.
  lemma ItemForms(s: string, st1: State, parent: Json, name: Option<string>)
    requires Fresh(s, st1) && Item(s, st1, parent, name).ok
    ensures var r, k := Item(s, st1, parent, name), st1.token.kind;
            if IsItem(k) then r.st.offset == st1.offset &&
                              AddObject(parent, name, Atom(ItemKind(k), JsonLexer.Text(s, st1.token))) == (ERR_NONE, r.tree)
            else (k == LCURLY && ObjectNext(s, st1, Object(map[]), true).ok) || (k == LSQUARE && ArrayNext(s, st1, Array([]), true).ok)
  {
    hide Expect, ArrayNext, ObjectNext, AddObject;
  }

  // A value has been read after the blanks at st, and it is the text of c.
  ghost predicate Consumed(s: string, st: State, parent: Json, name: Option<string>, c: Cst)
    requires st.In(s) && NextToken(s, st).0 && Fresh(s, NextToken(s, st).1)
  {
    var st1 := NextToken(s, st).1;
    var r := Item(s, st1, parent, name);
    && (st1.token.kind == QUOTE ==> st1.token.start > 0)
    && st.offset <= Begin(st1.token) <= r.st.offset && AllWs(s[st.offset..Begin(st1.token)])
    && Valid(c) && Distinct(c) && Print(c) == s[Begin(st1.token)..r.st.offset]
    && AddObject(parent, name, Tree(c)) == (ERR_NONE, r.tree)
  }

  lemma AtomConsumed(s: string, st: State, parent: Json, name: Option<string>) returns (c: Cst)
    requires st.In(s) && NextToken(s, st).0 && Fresh(s, NextToken(s, st).1)
    requires Item(s, NextToken(s, st).1, parent, name).ok && IsItem(NextToken(s, st).1.token.kind)
    ensures Consumed(s, st, parent, name, c)
  {
    hide Item, NextToken, Print, Valid, Distinct, Tree, SkipWs, AllWs, AddObject;
    ItemForms(s, NextToken(s, st).1, parent, name);
    TokenSpan(s, st);
    c := AtomSound(s, st);
  }

  // A value as ParseArrayNext or ParsePair meets it, st being the state before its first token.
  lemma {:induction false} ItemSound(s: string, st: State, parent: Json, name: Option<string>) returns (c: Cst)
    requires st.In(s) && NextToken(s, st).0 && Fresh(s, NextToken(s, st).1)
    requires Item(s, NextToken(s, st).1, parent, name).ok
    ensures Consumed(s, st, parent, name, c)
    decreases |s| - NextToken(s, st).1.offset, 4
  {
    hide Item, NextToken, Expect, ArrayNext, ObjectNext, Print, Valid, Distinct, Tree, SkipWs, AllWs, Punctuation, AddObject;
    var st1 := NextToken(s, st).1;
    ItemForms(s, st1, parent, name);
    if IsItem(st1.token.kind) {
      c := AtomConsumed(s, st, parent, name);
    } else {
      TokenSpan(s, st);
      Brackets(s[st1.offset - 1]);
      if st1.token.kind == LCURLY {
        c := ObjectSound(s, st1);
        CloseSound(s, st1, parent, name, c, RCURLY);
      } else {
        c := ArraySound(s, st1);
        CloseSound(s, st1, parent, name, c, RSQUARE);
      }
    }
  }

  // The bracket that Expect reads again after the undo is the next byte.
  lemma ExpectBracket(s: string, st: State, kind: TokenKind)
    requires st.In(s) && (kind == RCURLY || kind == RSQUARE)
    requires st.offset < |s| && Punctuation(s[st.offset]) == kind
    ensures Expect(s, st, kind) == (true, State(st.offset + 1, Token(kind, st.offset, 1), st.error))
  {
  }

  lemma CloseSound(s: string, st1: State, parent: Json, name: Option<string>, c: Cst, kind: TokenKind)
    requires Fresh(s, st1) && st1.token.len == 1 && st1.offset > 0
    requires st1.token.kind == (if kind == RCURLY then LCURLY else LSQUARE)
    requires kind == RCURLY || kind == RSQUARE
    requires Item(s, st1, parent, name).ok
    requires var sub := if kind == RCURLY then ObjectNext(s, st1, Object(map[]), true) else ArrayNext(s, st1, Array([]), true);
             sub.ok && Tree(c) == sub.tree && Print(c) == s[st1.offset - 1..sub.st.offset + 1]
    ensures var r := Item(s, st1, parent, name);
            Print(c) == s[st1.offset - 1..r.st.offset] && AddObject(parent, name, Tree(c)) == (ERR_NONE, r.tree)
  {
    hide NextToken, Expect, ArrayNext, ObjectNext, Print, Tree, AddObject;
    var sub := if kind == RCURLY then ObjectNext(s, st1, Object(map[]), true) else ArrayNext(s, st1, Array([]), true);
    var put := Attach(sub.st, parent, name, sub.tree);
    ExpectBracket(s, put.st, kind);
  }

  lemma Wrap(s: string, a: nat, b: nat)
    requires 0 < a <= b < |s|
    ensures [s[a - 1]] + s[a..b] + [s[b]] == s[a - 1..b + 1]
  {
  }

  lemma EndHasNoItem(s: string, st: State, parent: Json, name: Option<string>)
    requires Fresh(s, st) && st.token.kind == EOF
    ensures !Item(s, st, parent, name).ok
  {
    hide ArrayNext, ObjectNext, Expect, AddObject;
  }

  // The token of a loop over elements is not an error or the end of the input; ']' ends the loop.
  lemma ArrayStarts(s: string, st: State, parent: Json, allowEnd: bool)
    requires st.In(s) && ArrayNext(s, st, parent, allowEnd).ok
    ensures var (ok, st1) := NextToken(s, st);
            ok && st1.token.kind != EOF &&
            (st1.token.kind == RSQUARE ==> ArrayNext(s, st, parent, allowEnd) == Outcome(true, Undo(st1), parent))
  {
    hide NextToken, Item, ArrayTail;
    var (ok, st1) := NextToken(s, st);
    if ok && st1.token.kind == EOF {
      EndHasNoItem(s, st1, parent, None);
    }
  }

  lemma ArrTree(es: Elems)
    ensures Print(Arr(es)) == "[" + PrintElems(es) + "]" && IsContainer(Arr(es))
    ensures (Valid(Arr(es)) <==> ValidElems(es)) && (Distinct(Arr(es)) <==> DistinctElems(es)) && Tree(Arr(es)) == Array(TreeElems(es))
  {
    hide PrintElems, ValidElems, DistinctElems, TreeElems;
  }

  lemma EmptyArrTree(ws: string)
    ensures Print(EmptyArr(ws)) == "[" + ws + "]" && IsContainer(EmptyArr(ws))
    ensures (Valid(EmptyArr(ws)) <==> AllWs(ws)) && Distinct(EmptyArr(ws)) && Tree(EmptyArr(ws)) == Array([])
  {
  }

  // From the byte after '[' to the matching ']'.
  lemma {:induction false} ArraySound(s: string, st: State) returns (c: Cst)
    requires st.In(s) && st.offset > 0 && s[st.offset - 1] == '['
    requires ArrayNext(s, st, Array([]), true).ok
    ensures var r := ArrayNext(s, st, Array([]), true);
            IsContainer(c) && Valid(c) && Distinct(c) && Print(c) == s[st.offset - 1..r.st.offset + 1] && Tree(c) == r.tree
    decreases |s| - st.offset, 3
  {
    hide NextToken, ArrayNext, Print, Valid, Distinct, Tree, PrintElems, ValidElems, DistinctElems, TreeElems, IsContainer, SkipWs, AllWs;
    ArrayStarts(s, st, Array([]), true);
    var r := ArrayNext(s, st, Array([]), true);
    var st1 := NextToken(s, st).1;
    TokenSpan(s, st);
    var inner := s[st.offset..r.st.offset];
    if st1.token.kind == RSQUARE {
      c := EmptyArr(inner);
      EmptyArrTree(inner);
    } else {
      var es := ElemsSound(s, st, [], true);
      c := Arr(es);
      ArrTree(es);
      assert [] + TreeElems(es) == TreeElems(es);
    }
    Wrap(s, st.offset, r.st.offset);
  }

  // One unfolding of the array loop that does not end at once.
  lemma ArrayNextSteps(s: string, st: State, parent: Json, allowEnd: bool)
    requires st.In(s) && ArrayNext(s, st, parent, allowEnd).ok && NextToken(s, st).1.token.kind != RSQUARE
    ensures var r := ArrayNext(s, st, parent, allowEnd);
            var st1 := NextToken(s, st).1;
            NextToken(s, st).0 && Fresh(s, st1) &&
            var item := Item(s, st1, parent, None);
            item.ok && st1.offset <= item.st.offset && item.st.In(s) && NextToken(s, item.st).0 &&
            var st2 := NextToken(s, item.st).1;
            if st2.token.kind == COMMA then ArrayNext(s, st2, item.tree, false) == r && NextToken(s, st2).1.token.kind != RSQUARE
            else st2.token.kind == RSQUARE && r == Outcome(true, Undo(st2), item.tree) && st2.token.len == 1
  {
    hide NextToken, Item;
  }

  lemma PrintLast(s: string, a: nat, b: nat, c: nat, d: nat, v: Cst)
    requires a <= b <= c <= d <= |s| && Print(v) == s[b..c]
    ensures PrintElems(LastE(s[a..b], v, s[c..d])) == s[a..d]
  {
    hide Print;
    Cut3(s, a, b, c, d);
  }

  lemma PrintMore(s: string, a: nat, b: nat, c: nat, d: nat, e: nat, v: Cst, rest: Elems)
    requires a <= b <= c <= d < e <= |s| && Print(v) == s[b..c] && s[d] == ',' && PrintElems(rest) == s[d + 1..e]
    ensures PrintElems(MoreE(s[a..b], v, s[c..d], rest)) == s[a..e]
  {
    hide Print;
    Cut3(s, a, b, c, d);
    Cut3(s, a, d, d + 1, e);
    assert s[d..d + 1] == ",";
  }

  // The first value of a non-empty array lies at s[b..c]; the loop stops or goes on at s[e].
  lemma {:induction false} FirstElem(s: string, st: State, items: seq<Json>, allowEnd: bool)
    returns (v: Cst, b: nat, c: nat, e: nat, next: State)
    requires st.In(s)
    requires ArrayNext(s, st, Array(items), allowEnd).ok && NextToken(s, st).1.token.kind != RSQUARE
    ensures Valid(v) && Distinct(v)
    ensures st.offset <= b <= c <= e < |s| && Print(v) == s[b..c] && AllWs(s[st.offset..b]) && AllWs(s[c..e])
    ensures var r := ArrayNext(s, st, Array(items), allowEnd);
            if s[e] == ',' then
              next.In(s) && next.offset == e + 1 && ArrayNext(s, next, Array(items + [Tree(v)]), false) == r &&
              NextToken(s, next).1.token.kind != RSQUARE
            else r.st.offset == e && r.tree == Array(items + [Tree(v)])
    decreases |s| - st.offset, 1
  {
    hide NextToken, Item, ArrayNext, Print, Valid, Distinct, Tree;
    ArrayNextSteps(s, st, Array(items), allowEnd);
    var st1 := NextToken(s, st).1;
    v := ItemSound(s, st, Array(items), None);
    var item := Item(s, st1, Array(items), None);
    next := NextToken(s, item.st).1;
    TokenSpan(s, item.st);
    b, c, e := Begin(st1.token), item.st.offset, Begin(next.token);
  }

  lemma {:induction false} ElemsSound(s: string, st: State, items: seq<Json>, allowEnd: bool) returns (es: Elems)
    requires st.In(s)
    requires ArrayNext(s, st, Array(items), allowEnd).ok && NextToken(s, st).1.token.kind != RSQUARE
    ensures var r := ArrayNext(s, st, Array(items), allowEnd);
            ValidElems(es) && DistinctElems(es) && PrintElems(es) == s[st.offset..r.st.offset] &&
            r.tree == Array(items + TreeElems(es))
    decreases |s| - st.offset, 2
  {
    hide NextToken, Item, ArrayNext, Print, Valid, Distinct, Tree;
    var v, b, c, e, next := FirstElem(s, st, items, allowEnd);
    if s[e] == ',' {
      var rest := ElemsSound(s, next, items + [Tree(v)], false);
      es := MoreE(s[st.offset..b], v, s[c..e], rest);
      PrintMore(s, st.offset, b, c, e, ArrayNext(s, st, Array(items), allowEnd).st.offset, v, rest);
      assert items + [Tree(v)] + TreeElems(rest) == items + TreeElems(es);
    } else {
      es := LastE(s[st.offset..b], v, s[c..e]);
      PrintLast(s, st.offset, b, c, e, v);
      assert TreeElems(es) == [Tree(v)];
    }
  }

  // The token of a loop over members is not an error or the end of the input; '}' ends the loop.
  lemma ObjectStarts(s: string, st: State, parent: Json, allowEnd: bool)
    requires st.In(s) && ObjectNext(s, st, parent, allowEnd).ok
    ensures var (ok, st1) := NextToken(s, st);
            ok && st1.token.kind != EOF &&
            (st1.token.kind == RCURLY ==> ObjectNext(s, st, parent, allowEnd) == Outcome(true, Undo(st1), parent))
  {
    hide NextToken, Pair;
  }

  lemma ObjTree(ms: Members)
    ensures Print(Obj(ms)) == "{" + PrintMembers(ms) + "}" && IsContainer(Obj(ms))
    ensures (Valid(Obj(ms)) <==> ValidMembers(ms)) && (Distinct(Obj(ms)) <==> DistinctMembers(ms)) && Tree(Obj(ms)) == Object(TreeMembers(ms))
  {
    hide PrintMembers, ValidMembers, DistinctMembers, TreeMembers;
  }

  lemma EmptyObjTree(ws: string)
    ensures Print(EmptyObj(ws)) == "{" + ws + "}" && IsContainer(EmptyObj(ws))
    ensures (Valid(EmptyObj(ws)) <==> AllWs(ws)) && Distinct(EmptyObj(ws)) && Tree(EmptyObj(ws)) == Object(map[])
  {
  }

  // From the byte after '{' to the matching '}'.
  lemma {:induction false} ObjectSound(s: string, st: State) returns (c: Cst)
    requires st.In(s) && st.offset > 0 && s[st.offset - 1] == '{'
    requires ObjectNext(s, st, Object(map[]), true).ok
    ensures var r := ObjectNext(s, st, Object(map[]), true);
            IsContainer(c) && Valid(c) && Distinct(c) && Print(c) == s[st.offset - 1..r.st.offset + 1] && Tree(c) == r.tree
    decreases |s| - st.offset, 3
  {
    hide NextToken, ObjectNext, Print, Valid, Distinct, Tree, PrintMembers, ValidMembers, DistinctMembers, TreeMembers, IsContainer, SkipWs, AllWs;
    ObjectStarts(s, st, Object(map[]), true);
    var r := ObjectNext(s, st, Object(map[]), true);
    var st1 := NextToken(s, st).1;
    TokenSpan(s, st);
    var inner := s[st.offset..r.st.offset];
    if st1.token.kind == RCURLY {
      c := EmptyObj(inner);
      EmptyObjTree(inner);
    } else {
      var ms := MembersSound(s, st, map[], true);
      c := Obj(ms);
      ObjTree(ms);
      assert map[] + TreeMembers(ms) == TreeMembers(ms);
    }
    Wrap(s, st.offset, r.st.offset);
  }

  // The name token and the colon after it.
  lemma NameSound(s: string, st: State) returns (pre: string, name: string, mid: string)
    requires st.In(s) && NextToken(s, st).0 && NextToken(s, st).1.token.kind == QUOTE
    requires Expect(s, NextToken(s, st).1, COLON).0
    ensures Fresh(s, NextToken(s, st).1) && name == JsonLexer.Text(s, NextToken(s, st).1.token)
    ensures AllWs(pre) && AllWs(mid) && LooseBody(name)
    ensures var st2 := Expect(s, NextToken(s, st).1, COLON).1;
            s[st.offset..st2.offset] == pre + "\"" + name + "\"" + mid + ":"
  {
    hide NextToken, CString, SkipWs, LooseBody, Distinct;
    var st1 := NextToken(s, st).1;
    TokenSpan(s, st);
    TokenSpan(s, st1);
    var c := AtomSound(s, st);
    var st2 := Expect(s, st1, COLON).1;
    var b, e := Begin(st1.token), Begin(st2.token);
    pre, name, mid := s[st.offset..b], JsonLexer.Text(s, st1.token), s[st1.offset..e];
    Cut3(s, st.offset, b, st1.offset, e);
    Glue(s, st.offset, e, st2.offset);
    assert s[e..st2.offset] == ":";
    assert c == Str(name) && Valid(c);
  }

  lemma ObjectNextSteps(s: string, st: State, parent: Json, allowEnd: bool)
    requires st.In(s) && ObjectNext(s, st, parent, allowEnd).ok && NextToken(s, st).1.token.kind != RCURLY
    ensures var r := ObjectNext(s, st, parent, allowEnd);
            var st1 := NextToken(s, st).1;
            NextToken(s, st).0 && Fresh(s, st1) && st1.token.kind == QUOTE && Expect(s, st1, COLON).0 &&
            var name := Some(CString(JsonLexer.Text(s, st1.token)));
            var st2 := Expect(s, st1, COLON).1;
            st2.In(s) && st.offset < st2.offset && NextToken(s, st2).0 &&
            var st3 := NextToken(s, st2).1;
            Fresh(s, st3) &&
            var item := Item(s, st3, parent, name);
            item.ok && st3.offset <= item.st.offset && item.st.In(s) && NextToken(s, item.st).0 &&
            var st4 := NextToken(s, item.st).1;
            if st4.token.kind == COMMA then ObjectNext(s, st4, item.tree, false) == r && NextToken(s, st4).1.token.kind != RCURLY
            else st4.token.kind == RCURLY && r == Outcome(true, Undo(st4), item.tree) && st4.token.len == 1
  {
    hide NextToken, Item, Expect, CString;
    var st1 := NextToken(s, st).1;
    var r := ObjectNext(s, st, parent, allowEnd);
    assert r == Pair(s, st1, parent);
    var st3 := NextToken(s, Expect(s, st1, COLON).1).1;
    var item := Item(s, st3, parent, Some(CString(JsonLexer.Text(s, st1.token))));
    assert r == PairTail(s, item.st, item.tree);
  }

  lemma PrintLastM(s: string, a: nat, k: nat, b: nat, c: nat, d: nat, pre: string, name: string, mid: string, v: Cst)
    requires a <= k <= b <= c <= d <= |s| && Print(v) == s[b..c]
    requires s[a..k] == pre + "\"" + name + "\"" + mid + ":"
    ensures PrintMembers(LastM(pre, name, mid, s[k..b], v, s[c..d])) == s[a..d]
  {
    hide Print;
    Cut3(s, k, b, c, d);
    Glue(s, a, k, d);
  }

  lemma PrintMoreM(s: string, a: nat, k: nat, b: nat, c: nat, d: nat, e: nat,
                   pre: string, name: string, mid: string, v: Cst, rest: Members)
    requires a <= k <= b <= c <= d < e <= |s| && Print(v) == s[b..c] && s[d] == ',' && PrintMembers(rest) == s[d + 1..e]
    requires s[a..k] == pre + "\"" + name + "\"" + mid + ":"
    ensures PrintMembers(MoreM(pre, name, mid, s[k..b], v, s[c..d], rest)) == s[a..e]
  {
    hide Print;
    Cut3(s, k, b, c, d);
    Glue(s, a, k, d);
    assert PrintMember(pre, name, mid, s[k..b], s[b..c], s[c..d]) == s[a..d];
    Cut3(s, a, d, d + 1, e);
    assert s[d..d + 1] == ",";
  }

  // What follows a value: blanks, and a comma or a closing bracket.
  lemma TailSound(s: string, st: State)
    requires st.In(s) && NextToken(s, st).0
    requires var k := NextToken(s, st).1.token.kind; k == COMMA || k == RCURLY || k == RSQUARE
    ensures var next := NextToken(s, st).1;
            var e := Begin(next.token);
            st.offset <= e < |s| && next.In(s) && next.offset == e + 1 && AllWs(s[st.offset..e]) &&
            (s[e] == ',' <==> next.token.kind == COMMA) && (next.token.len == 1 ==> Undo(next).offset == e)
  {
    hide NextToken, AllWs, SkipWs, Punctuation;
    TokenSpan(s, st);
    Brackets(s[NextToken(s, st).1.offset - 1]);
  }

  // The first member of a non-empty object: its name part ends at k and its value lies at s[b..c].
  lemma {:induction false} FirstMember(s: string, st: State, m: map<string, Json>, allowEnd: bool)
    returns (pre: string, name: string, mid: string, v: Cst, k: nat, b: nat, c: nat, e: nat, next: State)
    requires st.In(s)
    requires ObjectNext(s, st, Object(m), allowEnd).ok && NextToken(s, st).1.token.kind != RCURLY
    ensures Valid(v) && Distinct(v) && AllWs(pre) && AllWs(mid) && LooseBody(name) && CString(name) !in m
    ensures st.offset < k <= b <= c <= e < |s| && Print(v) == s[b..c] && AllWs(s[k..b]) && AllWs(s[c..e])
    ensures s[st.offset..k] == pre + "\"" + name + "\"" + mid + ":"
    ensures var r := ObjectNext(s, st, Object(m), allowEnd);
            if s[e] == ',' then
              next.In(s) && next.offset == e + 1 && ObjectNext(s, next, Object(m[CString(name) := Tree(v)]), false) == r &&
              NextToken(s, next).1.token.kind != RCURLY
            else r.st.offset == e && r.tree == Object(m[CString(name) := Tree(v)])
    decreases |s| - st.offset, 1
  {
    hide NextToken, Item, Expect, ObjectNext, Print, Valid, Distinct, Tree, LooseBody, CString, AllWs, Punctuation, SkipWs;
    ObjectNextSteps(s, st, Object(m), allowEnd);
    var st1 := NextToken(s, st).1;
    pre, name, mid := NameSound(s, st);
    var st2 := Expect(s, st1, COLON).1;
    var st3 := NextToken(s, st2).1;
    v := ItemSound(s, st2, Object(m), Some(CString(name)));
    var item := Item(s, st3, Object(m), Some(CString(name)));
    next := NextToken(s, item.st).1;
    TailSound(s, item.st);
    k, b, c, e := st2.offset, Begin(st3.token), item.st.offset, Begin(next.token);
  }

  lemma AddThenMerge(m: map<string, Json>, name: string, v: Json, rest: map<string, Json>)
    requires name !in rest
    ensures m[name := v] + rest == m + (rest + map[name := v])
  {
  }

  lemma {:induction false} MembersSound(s: string, st: State, m: map<string, Json>, allowEnd: bool) returns (ms: Members)
    requires st.In(s)
    requires ObjectNext(s, st, Object(m), allowEnd).ok && NextToken(s, st).1.token.kind != RCURLY
    ensures var r := ObjectNext(s, st, Object(m), allowEnd);
            ValidMembers(ms) && DistinctMembers(ms) && Names(ms) !! m.Keys &&
            PrintMembers(ms) == s[st.offset..r.st.offset] && r.tree == Object(m + TreeMembers(ms))
    decreases |s| - st.offset, 2
  {
    hide NextToken, Item, Expect, ObjectNext, Print, Valid, Distinct, Tree, LooseBody, CString, AllWs, PrintMembers, PrintMember;
    var pre, name, mid, v, k, b, c, e, next := FirstMember(s, st, m, allowEnd);
    var m' := m[CString(name) := Tree(v)];
    if s[e] == ',' {
      var rest := MembersSound(s, next, m', false);
      ms := MoreM(pre, name, mid, s[k..b], v, s[c..e], rest);
      PrintMoreM(s, st.offset, k, b, c, e, ObjectNext(s, st, Object(m), allowEnd).st.offset, pre, name, mid, v, rest);
      AddThenMerge(m, CString(name), Tree(v), TreeMembers(rest));
    } else {
      ms := LastM(pre, name, mid, s[k..b], v, s[c..e]);
      PrintLastM(s, st.offset, k, b, c, e, pre, name, mid, v);
      assert TreeMembers(ms) == map[CString(name) := Tree(v)];
      assert m' == m + TreeMembers(ms);
    }
  }

  // ======================= completeness =======================

  // What may follow a value inside an array or object.
  predicate Delimiter(c: char) { IsWs(c) || c == ',' || c == ']' || c == '}' }

  lemma NextPunctuation(s: string, st: State, pre: string, c: char)
    requires st.In(s) && At(s, st.offset, pre) && AllWs(pre)
    requires st.offset + |pre| < |s| && s[st.offset + |pre|] == c && Punctuation(c) != INVALID
    ensures var p := st.offset + |pre|;
            NextToken(s, st) == (true, State(p + 1, Token(Punctuation(c), p, 1), st.error))
  {
    hide SkipWs;
    SkipWsStops(s, st.offset, pre);
  }

  lemma Bracketed(s: string, p: nat, open: string, inner: string, close: string)
    requires |open| == 1 && |close| == 1 && At(s, p, open + inner + close)
    ensures p < |s| && s[p] == open[0] && At(s, p + 1, inner)
    ensures p + 1 + |inner| < |s| && s[p + 1 + |inner|] == close[0]
  {
    AtConcat(s, p, open + inner, close);
    AtConcat(s, p, open, inner);
    AtChar(s, p, open, 0);
    AtChar(s, p + 1 + |inner|, close, 0);
  }

  lemma WordIsAlpha(word: string)
    requires Valid(Word(word))
    ensures |word| > 0 && (forall k | 0 <= k < |word| :: IsAlpha(word[k])) && WordKind(word) != INVALID
  {
    assert word == "true" || word == "false" || word == "null";
  }

  lemma WordComplete(s: string, p: nat, word: string, error: Error)
    requires Valid(Word(word)) && At(s, p, word) && p + |word| < |s| && !IsAlpha(s[p + |word|])
    ensures p < |s| && IsAlpha(s[p])
    ensures AlphabetToken(s, p, error) == (true, State(p + |word|, Token(WordKind(word), p, |word|), error))
    ensures s[p..p + |word|] == word
  {
    WordIsAlpha(word);
    hide Valid, SkipAlpha, WordKind;
    AtChar(s, p, word, 0);
    assert word == word[..1] + word[1..];
    AtConcat(s, p, word[..1], word[1..]);
    SkipAlphaStops(s, p + 1, word[1..]);
  }

  lemma NumComplete(s: string, p: nat, c: Cst, error: Error)
    requires c.Num? && Valid(c) && At(s, p, Print(c)) && p + |Print(c)| < |s| && !ContinuesNumber(s[p + |Print(c)|])
    ensures p < |s| && (s[p] == '-' || IsDigit(s[p]))
    ensures var kind := if c.frac == "" && c.exp == "" then INTEGER else FLOAT;
            DigitToken(s, p, error) == (true, State(p + |Print(c)|, Token(kind, p, |Print(c)|), error))
    ensures s[p..p + |Print(c)|] == Print(c)
  {
    hide ScanNumber, Valid, Print, ContinuesNumber;
    ScanNumberComplete(s, p, c);
  }

  lemma QuoteAfter(s: string, i: nat, body: string)
    requires At(s, i, body) && i + |body| < |s| && s[i + |body|] == '"'
    ensures At(s, i, body + "\"")
  {
    assert [s[i + |body|]] == s[i + |body|..i + |body| + 1];
    AtConcat(s, i, body, "\"");
  }

  lemma StrComplete(s: string, p: nat, body: string, error: Error)
    requires LooseBody(body) && At(s, p, Print(Str(body)))
    ensures p < |s| && s[p] == '"' && p + 1 + |body| < |s| && s[p + 1..p + 1 + |body|] == body
    ensures QuoteToken(s, p, error) == (true, State(p + |body| + 2, Token(QUOTE, p + 1, |body|), error))
  {
    hide ScanString, LooseBody;
    Bracketed(s, p, "\"", body, "\"");
    QuoteAfter(s, p + 1, body);
    ScanStringComplete(s, p + 1, body);
  }

  predicate IsAtom(c: Cst) { c.Num? || c.Str? || c.Word? }

  // The item just read is the text of c, up to `end`.
  ghost predicate Reads(s: string, end: nat, error: Error, c: Cst, r: (bool, State)) {
    && r.0 && Fresh(s, r.1) && IsItem(r.1.token.kind) && r.1.error == error && r.1.offset == end
    && Tree(c) == Atom(ItemKind(r.1.token.kind), JsonLexer.Text(s, r.1.token))
    && (c.Str? ==> r.1.token.kind == QUOTE)
  }

  lemma WordReads(s: string, p: nat, c: Cst, error: Error)
    requires c.Word? && Valid(c) && At(s, p, Print(c)) && p + |Print(c)| < |s| && Delimiter(s[p + |Print(c)|])
    ensures p < |s| && IsAlpha(s[p]) && Reads(s, p + |Print(c)|, error, c, AlphabetToken(s, p, error))
  {
    hide AlphabetToken, At;
    WordComplete(s, p, c.word, error);
  }

  lemma StrReads(s: string, p: nat, c: Cst, error: Error)
    requires c.Str? && Valid(c) && At(s, p, Print(c))
    ensures p < |s| && s[p] == '"' && Reads(s, p + |Print(c)|, error, c, QuoteToken(s, p, error))
  {
    hide QuoteToken, At, LooseBody;
    StrComplete(s, p, c.body, error);
  }

  lemma NumReads(s: string, p: nat, c: Cst, error: Error)
    requires c.Num? && Valid(c) && At(s, p, Print(c)) && p + |Print(c)| < |s| && Delimiter(s[p + |Print(c)|])
    ensures p < |s| && (s[p] == '-' || IsDigit(s[p])) && Reads(s, p + |Print(c)|, error, c, DigitToken(s, p, error))
  {
    hide DigitToken, At, Valid;
    NumComplete(s, p, c, error);
    assert Tree(c) == Atom(if c.frac == "" && c.exp == "" then Number else Float, Print(c));
    hide Print;
  }

  lemma NextAtom(s: string, st: State, pre: string, c: Cst)
    requires st.In(s) && IsAtom(c) && Valid(c) && AllWs(pre) && At(s, st.offset, pre)
    requires At(s, st.offset + |pre|, Print(c))
    requires var e := st.offset + |pre| + |Print(c)|; c.Str? || (e < |s| && Delimiter(s[e]))
    ensures Reads(s, st.offset + |pre| + |Print(c)|, st.error, c, NextToken(s, st))
  {
    hide NextToken, SkipWs, Valid, Print, AlphabetToken, DigitToken, QuoteToken, At, Reads, Delimiter;
    var p := st.offset + |pre|;
    if c.Word? {
      WordReads(s, p, c, st.error);
    } else if c.Str? {
      StrReads(s, p, c, st.error);
    } else {
      NumReads(s, p, c, st.error);
    }
    NoBlank(s[p]);
    SkipWsStops(s, st.offset, pre);
    Dispatch(s, st);
  }

  lemma NoBlank(c: char)
    ensures c == '-' || IsDigit(c) || IsAlpha(c) || c == '"' ==> !IsWs(c)
  {
  }

  lemma ExpectColon(s: string, st: State, mid: string)
    requires st.In(s) && At(s, st.offset, mid) && AllWs(mid)
    requires st.offset + |mid| < |s| && s[st.offset + |mid|] == ':'
    ensures var p := st.offset + |mid|; Expect(s, st, COLON) == (true, State(p + 1, Token(COLON, p, 1), st.error))
  {
    hide NextToken;
    NextPunctuation(s, st, mid, ':');
  }

  // The first character of `post`, or `next` when `post` is empty, is a delimiter.
  lemma AfterValue(s: string, i: nat, post: string, next: char)
    requires AllWs(post) && At(s, i, post) && i + |post| < |s| && s[i + |post|] == next && Delimiter(next)
    ensures i < |s| && Delimiter(s[i])
  {
    if post != "" { AtChar(s, i, post, 0); }
  }

  // Where the pieces of a printed element or member stand.
  lemma ElemAt(s: string, i: nat, es: Elems)
    requires At(s, i, PrintElems(es))
    ensures At(s, i, es.pre) && At(s, i + |es.pre|, Print(es.value))
    ensures At(s, i + |es.pre| + |Print(es.value)|, es.post)
    ensures var e := i + |es.pre| + |Print(es.value)| + |es.post|;
            if es.MoreE? then e < |s| && s[e] == ',' && At(s, e + 1, PrintElems(es.rest)) &&
                              e + 1 + |PrintElems(es.rest)| == i + |PrintElems(es)|
            else e == i + |PrintElems(es)|
  {
    hide Print, At;
    var head := es.pre + Print(es.value) + es.post;
    if es.MoreE? {
      AtConcat(s, i, head + ",", PrintElems(es.rest));
      AtConcat(s, i, head, ",");
      AtChar(s, i + |head|, ",", 0);
    }
    AtConcat(s, i, es.pre + Print(es.value), es.post);
    AtConcat(s, i, es.pre, Print(es.value));
  }

  lemma MemberAt(s: string, i: nat, pre: string, name: string, mid: string, gap: string, value: string, post: string)
    requires At(s, i, PrintMember(pre, name, mid, gap, value, post))
    ensures At(s, i, pre) && At(s, i + |pre|, Print(Str(name)))
    ensures var k := i + |pre| + |name| + 2;
            At(s, k, mid) && k + |mid| < |s| && s[k + |mid|] == ':' && At(s, k + |mid| + 1, gap) &&
            At(s, k + |mid| + 1 + |gap|, value) && At(s, k + |mid| + 1 + |gap| + |value|, post)
    ensures |PrintMember(pre, name, mid, gap, value, post)| == |pre| + |name| + |mid| + |gap| + |value| + |post| + 3
  {
    AtConcat(s, i, pre + "\"" + name + "\"" + mid + ":" + gap + value, post);
    AtConcat(s, i, pre + "\"" + name + "\"" + mid + ":" + gap, value);
    AtConcat(s, i, pre + "\"" + name + "\"" + mid + ":", gap);
    AtConcat(s, i, pre + "\"" + name + "\"" + mid, ":");
    AtChar(s, i + |pre| + |name| + 2 + |mid|, ":", 0);
    AtConcat(s, i, pre + "\"" + name + "\"", mid);
    assert pre + "\"" + name + "\"" == pre + ("\"" + name + "\"");
    AtConcat(s, i, pre, "\"" + name + "\"");
  }

  lemma MembersAt(s: string, i: nat, ms: Members)
    requires At(s, i, PrintMembers(ms))
    ensures At(s, i, ms.pre) && At(s, i + |ms.pre|, Print(Str(ms.name)))
    ensures var k := i + |ms.pre| + |ms.name| + 2;
            At(s, k, ms.mid) && k + |ms.mid| < |s| && s[k + |ms.mid|] == ':' && At(s, k + |ms.mid| + 1, ms.gap) &&
            var b := k + |ms.mid| + 1 + |ms.gap|;
            At(s, b, Print(ms.value)) && At(s, b + |Print(ms.value)|, ms.post) &&
            var e := b + |Print(ms.value)| + |ms.post|;
            if ms.MoreM? then e < |s| && s[e] == ',' && At(s, e + 1, PrintMembers(ms.rest)) &&
                              e + 1 + |PrintMembers(ms.rest)| == i + |PrintMembers(ms)|
            else e == i + |PrintMembers(ms)|
  {
    hide Print, PrintMember, At;
    var head := PrintMember(ms.pre, ms.name, ms.mid, ms.gap, Print(ms.value), ms.post);
    if ms.MoreM? {
      AtConcat(s, i, head + ",", PrintMembers(ms.rest));
      AtConcat(s, i, head, ",");
      AtChar(s, i + |head|, ",", 0);
    }
    MemberAt(s, i, ms.pre, ms.name, ms.mid, ms.gap, Print(ms.value), ms.post);
  }

  lemma NameToken(s: string, st: State, pre: string, name: string)
    requires st.In(s) && LooseBody(name) && AllWs(pre) && At(s, st.offset, pre)
    requires At(s, st.offset + |pre|, Print(Str(name)))
    ensures NextToken(s, st).0
    ensures var st1 := NextToken(s, st).1;
            Fresh(s, st1) && st1.token.kind == QUOTE && st1.offset == st.offset + |pre| + |name| + 2 &&
            JsonLexer.Text(s, st1.token) == name
  {
    hide NextToken, LooseBody;
    NextAtom(s, st, pre, Str(name));
    var body := JsonLexer.Text(s, NextToken(s, st).1.token);
    assert Tree(Str(name)) == Atom(Text, name);
  }

  // What stands between the brackets of a container.
  function Inner(c: Cst): string
    requires IsContainer(c)
  {
    match c
    case EmptyArr(ws) => ws
    case Arr(es) => PrintElems(es)
    case EmptyObj(ws) => ws
    case Obj(ms) => PrintMembers(ms)
  }

  predicate IsArray(c: Cst) { c.EmptyArr? || c.Arr? }

  // The first call made for a container, from the state after its opening bracket.
  function Open(s: string, st1: State, isArray: bool): Outcome
    requires st1.In(s)
  {
    if isArray then ArrayNext(s, st1, Array([]), true) else ObjectNext(s, st1, Object(map[]), true)
  }

  // The state after the opening bracket of a container that `pre` leads to.
  function AfterBracket(st: State, pre: string, c: Cst): State {
    var p := st.offset + |pre|;
    State(p + 1, Token(if IsArray(c) then LSQUARE else LCURLY, p, 1), st.error)
  }

  // A container whose bracket is the next token: the parser stops on its closing bracket.
  lemma {:induction false} ContainerComplete(s: string, st: State, pre: string, c: Cst)
    requires st.In(s) && IsContainer(c) && Valid(c) && Distinct(c) && AllWs(pre)
    requires At(s, st.offset, pre) && At(s, st.offset + |pre|, Print(c))
    ensures st.offset + |pre| < |s| && NextToken(s, st) == (true, AfterBracket(st, pre, c))
    ensures var sub := Open(s, AfterBracket(st, pre, c), IsArray(c));
            sub.ok && sub.tree == Tree(c) && sub.st.offset == st.offset + |pre| + |Print(c)| - 1 &&
            s[sub.st.offset] == if IsArray(c) then ']' else '}'
    decreases c, 1
  {
    hide NextToken, PrintElems, PrintMembers, Valid, Distinct, Tree, ArrayNext, ObjectNext, At;
    var p := st.offset + |pre|;
    var open, close := if IsArray(c) then "[" else "{", if IsArray(c) then "]" else "}";
    Bracketed(s, p, open, Inner(c), close);
    NextPunctuation(s, st, pre, open[0]);
    var st1 := NextToken(s, st).1;
    if IsArray(c) { ArrayInnerComplete(s, st1, c); } else { ObjectInnerComplete(s, st1, c); }
  }

  lemma {:induction false} ArrayInnerComplete(s: string, st1: State, c: Cst)
    requires st1.In(s) && Valid(c) && Distinct(c) && IsArray(c)
    requires At(s, st1.offset, Inner(c))
    requires var e := st1.offset + |Inner(c)|; e < |s| && s[e] == ']'
    ensures var sub := ArrayNext(s, st1, Array([]), true);
            sub.ok && sub.tree == Tree(c) && sub.st.offset == st1.offset + |Inner(c)|
    decreases c, 0
  {
    hide NextToken, PrintElems, ValidElems, DistinctElems, TreeElems, Item;
    match c {
      case EmptyArr(ws) => NextPunctuation(s, st1, ws, ']');
      case Arr(es) =>
        hide ArrayNext;
        ElemsComplete(s, st1, es, [], true);
        assert [] + TreeElems(es) == TreeElems(es);
    }
  }

  lemma {:induction false} ObjectInnerComplete(s: string, st1: State, c: Cst)
    requires st1.In(s) && Valid(c) && Distinct(c) && (c.EmptyObj? || c.Obj?)
    requires At(s, st1.offset, Inner(c))
    requires var e := st1.offset + |Inner(c)|; e < |s| && s[e] == '}'
    ensures var sub := ObjectNext(s, st1, Object(map[]), true);
            sub.ok && sub.tree == Tree(c) && sub.st.offset == st1.offset + |Inner(c)|
    decreases c, 0
  {
    hide NextToken, PrintMembers, ValidMembers, DistinctMembers, TreeMembers, Pair;
    match c {
      case EmptyObj(ws) => NextPunctuation(s, st1, ws, '}');
      case Obj(ms) =>
        hide ObjectNext;
        MembersComplete(s, st1, ms, map[], true);
        assert map[] + TreeMembers(ms) == TreeMembers(ms);
    }
  }

  // Every valid value at the next token is taken whole and added to the parent.
  lemma {:induction false} ItemComplete(s: string, st: State, pre: string, c: Cst, parent: Json, name: Option<string>)
    requires st.In(s) && Valid(c) && Distinct(c) && AllWs(pre)
    requires At(s, st.offset, pre) && At(s, st.offset + |pre|, Print(c))
    requires var e := st.offset + |pre| + |Print(c)|; e < |s| && Delimiter(s[e])
    requires AddObject(parent, name, Tree(c)).0 == ERR_NONE
    ensures NextToken(s, st).0
    ensures var st1 := NextToken(s, st).1;
            Fresh(s, st1) && (IsItem(st1.token.kind) || st1.token.kind == LSQUARE || st1.token.kind == LCURLY) &&
            var r := Item(s, st1, parent, name);
            r.ok && r.tree == AddObject(parent, name, Tree(c)).1 && r.st.offset == st.offset + |pre| + |Print(c)|
    decreases c, 2
  {
    hide NextToken, ArrayNext, ObjectNext, Print, Valid, Distinct, Tree, AddObject, Expect;
    if IsAtom(c) {
      NextAtom(s, st, pre, c);
    } else {
      ContainerComplete(s, st, pre, c);
      var st1 := NextToken(s, st).1;
      var sub := Open(s, st1, IsArray(c));
      var put := Attach(sub.st, parent, name, sub.tree);
      ExpectBracket(s, put.st, if IsArray(c) then RSQUARE else RCURLY);
    }
  }

  lemma {:induction false} ElemsComplete(s: string, st: State, es: Elems, items: seq<Json>, allowEnd: bool)
    requires st.In(s) && ValidElems(es) && DistinctElems(es)
    requires At(s, st.offset, PrintElems(es))
    requires var e := st.offset + |PrintElems(es)|; e < |s| && s[e] == ']'
    ensures var r := ArrayNext(s, st, Array(items), allowEnd);
            r.ok && r.st.offset == st.offset + |PrintElems(es)| && r.tree == Array(items + TreeElems(es))
    decreases es, 4
  {
    hide NextToken, Item, Print, Valid, Distinct, Tree, PrintElems, ArrayNext;
    var next := FirstElemComplete(s, st, es, items, allowEnd);
    if es.MoreE? {
      ElemsComplete(s, next, es.rest, items + [Tree(es.value)], false);
      assert items + [Tree(es.value)] + TreeElems(es.rest) == items + TreeElems(es);
    }
  }

  lemma {:induction false} FirstElemComplete(s: string, st: State, es: Elems, items: seq<Json>, allowEnd: bool)
    returns (next: State)
    requires st.In(s) && ValidElems(es) && DistinctElems(es)
    requires At(s, st.offset, PrintElems(es))
    requires var e := st.offset + |PrintElems(es)|; e < |s| && s[e] == ']'
    ensures next.In(s)
    ensures var r := ArrayNext(s, st, Array(items), allowEnd);
            var items' := items + [Tree(es.value)];
            if es.MoreE? then
              At(s, next.offset, PrintElems(es.rest)) && r == ArrayNext(s, next, Array(items'), false) &&
              next.offset + |PrintElems(es.rest)| == st.offset + |PrintElems(es)|
            else r.ok && r.st.offset == st.offset + |PrintElems(es)| && r.tree == Array(items')
    decreases es, 3
  {
    hide NextToken, Item, Print, Valid, Distinct, Tree, PrintElems, At, AllWs, Punctuation, ArrayNext;
    ElemAt(s, st.offset, es);
    var c := st.offset + |es.pre| + |Print(es.value)|;
    var e := c + |es.post|;
    AfterValue(s, c, es.post, s[e]);
    ItemComplete(s, st, es.pre, es.value, Array(items), None);
    var item := Item(s, NextToken(s, st).1, Array(items), None);
    Brackets(s[e]);
    NextPunctuation(s, item.st, es.post, s[e]);
    next := NextToken(s, item.st).1;
    ArrayStep(s, st, Array(items), allowEnd);
  }

  // An array step that reads a value goes on as ArrayTail does.
  lemma ArrayStep(s: string, st: State, parent: Json, allowEnd: bool)
    requires st.In(s) && NextToken(s, st).0 && NextToken(s, st).1.token.kind != RSQUARE && Fresh(s, NextToken(s, st).1)
    ensures var item := Item(s, NextToken(s, st).1, parent, None);
            ArrayNext(s, st, parent, allowEnd) == if item.ok then ArrayTail(s, item.st, item.tree) else item
  {
    hide NextToken, Item, ArrayTail;
  }

  lemma {:induction false} MembersComplete(s: string, st: State, ms: Members, m: map<string, Json>, allowEnd: bool)
    requires st.In(s) && ValidMembers(ms) && DistinctMembers(ms) && Names(ms) !! m.Keys
    requires At(s, st.offset, PrintMembers(ms))
    requires var e := st.offset + |PrintMembers(ms)|; e < |s| && s[e] == '}'
    ensures var r := ObjectNext(s, st, Object(m), allowEnd);
            r.ok && r.st.offset == st.offset + |PrintMembers(ms)| && r.tree == Object(m + TreeMembers(ms))
    decreases ms, 4
  {
    hide NextToken, Item, Expect, Print, Valid, Distinct, Tree, PrintMembers, CString, LooseBody, ObjectNext, At, AllWs;
    var next := FirstMemberComplete(s, st, ms, m, allowEnd);
    var m' := m[CString(ms.name) := Tree(ms.value)];
    if ms.MoreM? {
      MembersComplete(s, next, ms.rest, m', false);
      AddThenMerge(m, CString(ms.name), Tree(ms.value), TreeMembers(ms.rest));
    } else {
      assert m' == m + TreeMembers(ms);
    }
  }

  lemma {:induction false} FirstMemberComplete(s: string, st: State, ms: Members, m: map<string, Json>, allowEnd: bool)
    returns (next: State)
    requires st.In(s) && ValidMembers(ms) && DistinctMembers(ms) && CString(ms.name) !in m
    requires At(s, st.offset, PrintMembers(ms))
    requires var e := st.offset + |PrintMembers(ms)|; e < |s| && s[e] == '}'
    ensures next.In(s)
    ensures var r := ObjectNext(s, st, Object(m), allowEnd);
            var m' := m[CString(ms.name) := Tree(ms.value)];
            if ms.MoreM? then
              At(s, next.offset, PrintMembers(ms.rest)) && r == ObjectNext(s, next, Object(m'), false) &&
              next.offset + |PrintMembers(ms.rest)| == st.offset + |PrintMembers(ms)|
            else r.ok && r.st.offset == st.offset + |PrintMembers(ms)| && r.tree == Object(m')
    decreases ms, 3
  {
    hide NextToken, Item, Expect, Print, Valid, Distinct, Tree, PrintMembers, CString, LooseBody, At, ObjectNext, PairTail, AllWs;
    MembersAt(s, st.offset, ms);
    var item := NameAndValue(s, st, ms, m, allowEnd);
    next := PairTailComplete(s, item, ms.post, Object(m[CString(ms.name) := Tree(ms.value)]));
  }

  // A member up to its value.
  lemma {:induction false} NameAndValue(s: string, st: State, ms: Members, m: map<string, Json>, allowEnd: bool)
    returns (item: State)
    requires st.In(s) && ValidMembers(ms) && DistinctMembers(ms) && CString(ms.name) !in m
    requires At(s, st.offset, PrintMembers(ms))
    requires var e := st.offset + |PrintMembers(ms)|; e < |s| && s[e] == '}'
    ensures item.In(s) && item.offset == st.offset + |ms.pre| + |ms.name| + |ms.mid| + |ms.gap| + |Print(ms.value)| + 3
    ensures ObjectNext(s, st, Object(m), allowEnd) == PairTail(s, item, Object(m[CString(ms.name) := Tree(ms.value)]))
    decreases ms, 2
  {
    hide NextToken, Item, Expect, Print, Valid, Distinct, Tree, PrintMembers, CString, LooseBody, At, ObjectNext, PairTail, AllWs;
    MembersAt(s, st.offset, ms);
    NameToken(s, st, ms.pre, ms.name);
    var st1 := NextToken(s, st).1;
    ExpectColon(s, st1, ms.mid);
    var st2 := Expect(s, st1, COLON).1;
    var c := st2.offset + |ms.gap| + |Print(ms.value)|;
    AfterValue(s, c, ms.post, s[c + |ms.post|]);
    ItemComplete(s, st2, ms.gap, ms.value, Object(m), Some(CString(ms.name)));
    PairSteps(s, st, Object(m), allowEnd);
    item := Item(s, NextToken(s, st2).1, Object(m), Some(CString(ms.name))).st;
  }

  // After a value: a comma, or the closing brace.
  lemma PairTailComplete(s: string, st: State, post: string, tree: Json) returns (next: State)
    requires st.In(s) && AllWs(post) && At(s, st.offset, post)
    requires var e := st.offset + |post|; e < |s| && (s[e] == ',' || s[e] == '}')
    ensures next.In(s) && next.offset == st.offset + |post| + 1
    ensures if s[st.offset + |post|] == ',' then PairTail(s, st, tree) == ObjectNext(s, next, tree, false)
            else next.token.len == 1 && PairTail(s, st, tree) == Outcome(true, Undo(next), tree)
  {
    hide NextToken, ObjectNext, At, AllWs;
    NextPunctuation(s, st, post, s[st.offset + |post|]);
    next := NextToken(s, st).1;
  }

  // An object step that reads a name, a colon and a value goes on as PairTail does.
  lemma PairSteps(s: string, st: State, parent: Json, allowEnd: bool)
    requires st.In(s) && NextToken(s, st).0 && NextToken(s, st).1.token.kind == QUOTE && Fresh(s, NextToken(s, st).1)
    requires var colon := Expect(s, NextToken(s, st).1, COLON);
             colon.0 && colon.1.In(s) && NextToken(s, colon.1).0 && Fresh(s, NextToken(s, colon.1).1)
    ensures var st1 := NextToken(s, st).1;
            var name := CString(JsonLexer.Text(s, st1.token));
            var item := Item(s, NextToken(s, Expect(s, st1, COLON).1).1, parent, Some(name));
            ObjectNext(s, st, parent, allowEnd) == if item.ok then PairTail(s, item.st, item.tree) else item
  {
    hide NextToken, Item, Expect, CString, PairTail;
    assert ObjectNext(s, st, parent, allowEnd) == Pair(s, NextToken(s, st).1, parent);
  }

  // ======================= main results =======================

  // What a successful parse went through: blanks, a container, and blanks to the end.
  lemma ParseOpens(s: string)
    requires Parse(s).1.Some?
    ensures var (ok, st1) := NextToken(s, START);
            ok && (st1.token.kind == LCURLY || st1.token.kind == LSQUARE) && st1.In(s) &&
            var sub := Open(s, st1, st1.token.kind == LSQUARE);
            sub.ok && Parse(s).1 == Some(sub.tree) && sub.st.offset < |s| && SkipWs(s, sub.st.offset + 1) == |s|
  {
    hide NextToken, ObjectNext, ArrayNext, Expect, SkipWs;
    var st1 := NextToken(s, START).1;
    var isArray := st1.token.kind == LSQUARE;
    ExpectBracket(s, Open(s, st1, isArray).st, if isArray then RSQUARE else RCURLY);
  }

  // A text that parses is a text of the grammar, and the tree is that of its derivation.
  lemma ParseSound(s: string) returns (lead: string, c: Cst, trail: string)
    requires Parse(s).1.Some?
    ensures Derives(s, lead, c, trail) && Distinct(c) && Parse(s).1.value == Tree(c)
  {
    hide Parse, NextToken, Open, Print, Valid, Distinct, Tree, SkipWs, IsContainer;
    ParseOpens(s);
    var st1 := NextToken(s, START).1;
    TokenSpan(s, START);
    c := RootSound(s, st1);
    var b, e := Begin(st1.token), Open(s, st1, st1.token.kind == LSQUARE).st.offset + 1;
    lead, trail := s[..b], s[e..];
    Cut3(s, 0, b, e, |s|);
  }

  lemma RootSound(s: string, st1: State) returns (c: Cst)
    requires st1.In(s) && st1.offset > 0
    requires Structural(st1.token.kind) && Punctuation(s[st1.offset - 1]) == st1.token.kind
    requires st1.token.kind == LCURLY || st1.token.kind == LSQUARE
    requires Open(s, st1, st1.token.kind == LSQUARE).ok
    ensures var sub := Open(s, st1, st1.token.kind == LSQUARE);
            IsContainer(c) && Valid(c) && Distinct(c) && Tree(c) == sub.tree &&
            Print(c) == s[st1.offset - 1..sub.st.offset + 1]
  {
    hide ObjectNext, ArrayNext, Print, Valid, Distinct, Tree;
    if st1.token.kind == LSQUARE { c := ArraySound(s, st1); } else { c := ObjectSound(s, st1); }
  }

  // Every text of the grammar parses to the tree of its derivation, up to its last byte.
  lemma ParseComplete(s: string, lead: string, c: Cst, trail: string)
    requires Derives(s, lead, c, trail) && Distinct(c)
    ensures Parse(s).1 == Some(Tree(c)) && Parse(s).0.offset == |s|
  {
    hide NextToken, ObjectNext, ArrayNext, Expect, Print, Valid, Distinct, Tree, SkipWs;
    assert At(s, 0, s);
    AtConcat(s, 0, lead + Print(c), trail);
    AtConcat(s, 0, lead, Print(c));
    ContainerComplete(s, START, lead, c);
    var sub := Open(s, AfterBracket(START, lead, c), IsArray(c));
    ExpectBracket(s, sub.st, if IsArray(c) then RSQUARE else RCURLY);
    SkipWsStops(s, |lead| + |Print(c)|, trail);
  }

  // What is printed holds no NUL exactly when its strings are those of section 7.
  lemma BodyNulFree(s: string)
    requires ValidBody(s)
    ensures NulFree(s) && LooseBody(s) && CString(s) == s
  {
    hide ValidBody, LooseBody;
    ValidIsLoose(s);
    CStringNulFree(s);
  }

  lemma NulFreeConcat(a: string, b: string)
    ensures NulFree(a + b) <==> NulFree(a) && NulFree(b)
  {
    if NulFree(a + b) {
      assert forall i | 0 <= i < |a| :: a[i] == (a + b)[i];
      assert forall i | 0 <= i < |b| :: b[i] == (a + b)[|a| + i];
    }
  }

  lemma WsNulFree(ws: string)
    ensures AllWs(ws) ==> NulFree(ws)
  {
  }

  lemma {:induction false} PrintNulFree(c: Cst)
    requires Valid(c)
    ensures NulFree(Print(c)) <==> Strict(c)
    decreases c
  {
    match c
    case Num(minus, whole, frac, exp) => NumNulFree(c);
    case Str(body) =>
      ValidIsLoose(body);
      Bracket("\"", body, "\"");
    case Word(_) =>
    case EmptyArr(ws) => WsNulFree(ws); Bracket("[", ws, "]");
    case EmptyObj(ws) => WsNulFree(ws); Bracket("{", ws, "}");
    case Arr(es) => ElemsNulFree(es); Bracket("[", PrintElems(es), "]");
    case Obj(ms) => MembersNulFree(ms); Bracket("{", PrintMembers(ms), "}");
  }

  lemma Bracket(open: string, inner: string, close: string)
    requires NulFree(open) && NulFree(close)
    ensures NulFree(open + inner + close) <==> NulFree(inner)
  {
    hide NulFree;
    NulFreeConcat(open + inner, close);
    NulFreeConcat(open, inner);
  }

  lemma NumNulFree(c: Cst)
    requires c.Num? && Valid(c)
    ensures NulFree(Print(c))
  {
    var frac := c.frac;
    assert NulFree(frac) by { if frac != "" { assert frac == [frac[0]] + frac[1..]; } }
    ExpNulFree(c.exp);
    assert NulFree(c.minus) && NulFree(c.whole);
  }

  lemma ExpNulFree(exp: string)
    requires ValidExp(exp)
    ensures NulFree(exp)
  {
    if exp != "" {
      var i := if |exp| >= 2 && (exp[1] == '+' || exp[1] == '-') then 2 else 1;
      assert exp == exp[..i] + exp[i..];
    }
  }

  lemma {:induction false} ElemsNulFree(es: Elems)
    requires ValidElems(es)
    ensures NulFree(PrintElems(es)) <==> StrictElems(es)
    decreases es
  {
    hide Print, NulFree, AllWs, Strict, Valid;
    PrintNulFree(es.value);
    WsNulFree(es.pre);
    WsNulFree(es.post);
    Bracket(es.pre, Print(es.value), es.post);
    if es.MoreE? {
      ElemsNulFree(es.rest);
      Comma(es.pre + Print(es.value) + es.post, PrintElems(es.rest));
    }
  }

  lemma Comma(a: string, b: string)
    ensures NulFree(a + "," + b) <==> NulFree(a) && NulFree(b)
  {
    NulFreeConcat(a + ",", b);
    NulFreeConcat(a, ",");
  }

  lemma {:induction false} MembersNulFree(ms: Members)
    requires ValidMembers(ms)
    ensures NulFree(PrintMembers(ms)) <==> StrictMembers(ms)
    decreases ms
  {
    hide Print, NulFree, AllWs, Strict, Valid, PrintMember, LooseBody, ValidBody;
    ValidIsLoose(ms.name);
    PrintNulFree(ms.value);
    MemberNulFree(ms.pre, ms.name, ms.mid, ms.gap, Print(ms.value), ms.post);
    if ms.MoreM? {
      MembersNulFree(ms.rest);
      Comma(PrintMember(ms.pre, ms.name, ms.mid, ms.gap, Print(ms.value), ms.post), PrintMembers(ms.rest));
    }
  }

  lemma MemberNulFree(pre: string, name: string, mid: string, gap: string, value: string, post: string)
    requires AllWs(pre) && AllWs(mid) && AllWs(gap) && AllWs(post)
    ensures NulFree(PrintMember(pre, name, mid, gap, value, post)) <==> NulFree(name) && NulFree(value)
  {
    hide NulFree, AllWs;
    WsNulFree(pre);
    WsNulFree(mid);
    WsNulFree(gap);
    WsNulFree(post);
    assert NulFree("\"") && NulFree(":") by { Quotes(); }
    NulFreeConcat(pre + "\"" + name + "\"" + mid + ":" + gap + value, post);
    NulFreeConcat(pre + "\"" + name + "\"" + mid + ":" + gap, value);
    NulFreeConcat(pre + "\"" + name + "\"" + mid + ":", gap);
    NulFreeConcat(pre + "\"" + name + "\"" + mid, ":");
    NulFreeConcat(pre + "\"" + name + "\"", mid);
    NulFreeConcat(pre + "\"" + name, "\"");
    NulFreeConcat(pre + "\"", name);
    NulFreeConcat(pre, "\"");
  }

  lemma Quotes()
    ensures NulFree("\"") && NulFree(":")
  {
  }

  // XJSON_Parse accepts a text exactly when it is in the grammar with NUL for an escape letter, and
  // a NUL-free text exactly when it is in the grammar of the standard, whose texts are NUL-free.
  lemma ParserAcceptsGrammar(s: string)
    ensures Parse(s).1.Some? <==> InLooseGrammar(s)
    ensures Parse(s).1.Some? && NulFree(s) <==> InGrammar(s)
  {
    hide Print, Valid, Distinct, Tree, Root, Strict, NulFree;
    if Parse(s).1.Some? {
      var lead, c, trail := ParseSound(s);
      DerivedNulFree(s, lead, c, trail);
    }
    if InLooseGrammar(s) {
      var lead, c, trail :| Derives(s, lead, c, trail) && Distinct(c);
      ParseComplete(s, lead, c, trail);
    }
    if InGrammar(s) {
      var lead, c, trail :| Derives(s, lead, c, trail) && Distinct(c) && Strict(c);
      ParseComplete(s, lead, c, trail);
      DerivedNulFree(s, lead, c, trail);
    }
  }

  lemma DerivedNulFree(s: string, lead: string, c: Cst, trail: string)
    requires Derives(s, lead, c, trail)
    ensures NulFree(s) <==> Strict(c)
  {
    hide Print, Valid, Strict;
    PrintNulFree(c);
    assert s[|lead|..|lead| + |Print(c)|] == Print(c);
  }

  // No text has two derivations with different trees.
  lemma GrammarUnambiguous(s: string, lead1: string, c1: Cst, trail1: string, lead2: string, c2: Cst, trail2: string)
    requires Derives(s, lead1, c1, trail1) && Distinct(c1)
    requires Derives(s, lead2, c2, trail2) && Distinct(c2)
    ensures Tree(c1) == Tree(c2)
  {
    hide Print, Valid, Distinct, Tree, Parse;
    ParseComplete(s, lead1, c1, trail1);
    ParseComplete(s, lead2, c2, trail2);
  }

  // A NUL after a backslash: accepted by the parser, but no text of the grammar.
  lemma NulAfterBackslashAccepted()
    ensures var s := ['[', '"', '\\', '\0', '"', ']']; Parse(s).1.Some? && !InGrammar(s)
  {
    var s := ['[', '"', '\\', '\0', '"', ']'];
    ParserAcceptsGrammar(s);
    hide Parse;
    var c := Arr(LastE("", Str(['\\', '\0']), ""));
    assert LooseBody(['\\', '\0'][2..]);
    assert Print(c) == s == "" + Print(c) + "";
    assert Derives(s, "", c, "") && Distinct(c);
    assert s[3] == '\0';
  }
}
