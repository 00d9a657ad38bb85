/**
 What the error code of a parse tells: which codes there are, what each says about the text, and the
 failure for which there is none.
 */
module JsonErrors {
  import opened Options
  import opened JsonGrammar
  import opened JsonLexer
  import opened JsonParser

  // The byte just read counted as the end of the text.
  predicate AtEofByte(s: string, st: State) {
    st.token.kind == EOF && 0 < st.offset <= |s| && IsEofByte(s[st.offset - 1])
  }

  // A failed step has the code for a text that ran out, for a name that is there already or for
  // anything else unexpected; or none, behind a byte that counts as the end.
  predicate Told(s: string, ok: bool, st: State) {
    match st.error
    case ERR_NONE => ok || AtEofByte(s, st)
    case ERR_BOUNDS => !ok && st.offset == |s|
    case ERR_INVALID => false
    case _ => !ok
  }

  lemma TokenTold(s: string, st: State)
    requires st.In(s) && st.error == ERR_NONE
    ensures var (ok, st1) := NextToken(s, st);
      Told(s, ok, st1) && (ok <==> st1.error == ERR_NONE) && (ok && st1.token.kind == EOF ==> AtEofByte(s, st1))
  {
    hide ScanNumber, ScanString, SkipWs, SkipAlpha;
  }

  lemma ExpectTold(s: string, st: State, kind: TokenKind)
    requires st.In(s) && st.error == ERR_NONE
    ensures var (ok, st1) := Expect(s, st, kind); Told(s, ok, st1) && (ok <==> st1.error == ERR_NONE)
  {
    hide NextToken;
    TokenTold(s, st);
  }

  // A parent that takes a value with this name, or without one.
  predicate Takes(parent: Json, name: Option<string>) { if name.Some? then parent.Object? else parent.Array? }

  predicate Same(r: Outcome, parent: Json) { r.ok ==> r.st.error == ERR_NONE && r.tree.Object? == parent.Object? && r.tree.Array? == parent.Array? }

  lemma AttachTold(s: string, st: State, parent: Json, name: Option<string>, child: Json)
    requires st.In(s) && st.error == ERR_NONE && Takes(parent, name)
    ensures var r := Attach(st, parent, name, child);
      Told(s, r.ok, r.st) && Same(r, parent) && (r.st.error == ERR_EXITS <==> name.Some? && name.value in parent.members)
  {
  }

  lemma {:induction false} ItemTold(s: string, st: State, parent: Json, name: Option<string>)
    requires Fresh(s, st) && st.error == ERR_NONE && Takes(parent, name)
    ensures var r := Item(s, st, parent, name); Told(s, r.ok, r.st) && Same(r, parent)
    decreases |s| - st.offset, 3
  {
    hide ObjectNext, ArrayNext, Expect, Attach, Told;
    if IsItem(st.token.kind) {
      AttachTold(s, st, parent, name, Atom(ItemKind(st.token.kind), JsonLexer.Text(s, st.token)));
    } else if st.token.kind == LCURLY {
      ObjectTold(s, st, Object(map[]), true);
      var sub := ObjectNext(s, st, Object(map[]), true);
      if sub.ok {
        AttachTold(s, sub.st, parent, name, sub.tree);
        var put := Attach(sub.st, parent, name, sub.tree);
        PutIn(s, sub.st, parent, name, sub.tree);
        if put.ok { ExpectTold(s, put.st, RCURLY); }
      }
    } else if st.token.kind == LSQUARE {
      ArrayTold(s, st, Array([]), true);
      var sub := ArrayNext(s, st, Array([]), true);
      if sub.ok {
        AttachTold(s, sub.st, parent, name, sub.tree);
        var put := Attach(sub.st, parent, name, sub.tree);
        PutIn(s, sub.st, parent, name, sub.tree);
        if put.ok { ExpectTold(s, put.st, RSQUARE); }
      }
    } else {
      UnexpectedTold(s, st);
    }
  }

  lemma PutIn(s: string, st: State, parent: Json, name: Option<string>, child: Json)
    requires st.In(s)
    ensures Attach(st, parent, name, child).st.In(s)
  {
  }

  lemma UnexpectedTold(s: string, st: State)
    requires st.token.Width() <= st.offset
    ensures Told(s, false, Unexpected(st))
  {
  }

  lemma {:induction false} ArrayTold(s: string, st: State, parent: Json, allowEnd: bool)
    requires st.In(s) && st.error == ERR_NONE && parent.Array?
    ensures var r := ArrayNext(s, st, parent, allowEnd); Told(s, r.ok, r.st) && Same(r, parent)
    decreases |s| - st.offset, 1
  {
    hide NextToken, Item, ArrayTail, Told;
    TokenTold(s, st);
    var (ok1, st1) := NextToken(s, st);
    if ok1 && st1.token.kind == RSQUARE {
      if allowEnd { UndoTold(s, st1); } else { UnexpectedTold(s, st1); }
    } else if ok1 {
      ItemTold(s, st1, parent, None);
      var item := Item(s, st1, parent, None);
      if item.ok { ArrayTailTold(s, item.st, item.tree); }
    }
  }

  lemma UndoTold(s: string, st: State)
    requires st.token.len <= st.offset && st.error == ERR_NONE
    ensures Told(s, true, Undo(st)) && Undo(st).error == ERR_NONE
  {
  }

  lemma {:induction false} ArrayTailTold(s: string, st: State, tree: Json)
    requires st.In(s) && st.error == ERR_NONE && tree.Array?
    ensures var r := ArrayTail(s, st, tree); Told(s, r.ok, r.st) && Same(r, tree)
    decreases |s| - st.offset, 2
  {
    hide NextToken, ArrayNext, Told;
    TokenTold(s, st);
    var (ok2, st2) := NextToken(s, st);
    if ok2 {
      if st2.token.kind == COMMA { ArrayTold(s, st2, tree, false); }
      else if st2.token.kind != RSQUARE { UnexpectedTold(s, st2); }
      else { UndoTold(s, st2); }
    }
  }

  lemma {:induction false} ObjectTold(s: string, st: State, parent: Json, allowEnd: bool)
    requires st.In(s) && st.error == ERR_NONE && parent.Object?
    ensures var r := ObjectNext(s, st, parent, allowEnd); Told(s, r.ok, r.st) && Same(r, parent)
    decreases |s| - st.offset, 1
  {
    hide NextToken, Pair;
    TokenTold(s, st);
    var (ok1, st1) := NextToken(s, st);
    if ok1 {
      if st1.token.kind == RCURLY {
        if allowEnd { UndoTold(s, st1); } else { UnexpectedTold(s, st1); }
      } else if st1.token.kind == QUOTE {
        PairTold(s, st1, parent);
      } else if st1.token.kind != EOF {
        UnexpectedTold(s, st1);
      }
    }
  }

  lemma {:induction false} PairTold(s: string, st: State, parent: Json)
    requires Fresh(s, st) && st.error == ERR_NONE && parent.Object?
    ensures var r := Pair(s, st, parent); Told(s, r.ok, r.st) && Same(r, parent)
    decreases |s| - st.offset, 2
  {
    hide NextToken, Expect, Item, CString, PairTail, Told;
    var name := CString(JsonLexer.Text(s, st.token));
    ExpectTold(s, st, COLON);
    var (ok1, st1) := Expect(s, st, COLON);
    if ok1 {
      TokenTold(s, st1);
      var (ok2, st2) := NextToken(s, st1);
      if ok2 {
        ItemTold(s, st2, parent, Some(name));
        var item := Item(s, st2, parent, Some(name));
        if item.ok { PairTailTold(s, item.st, item.tree); }
      }
    }
  }

  lemma {:induction false} PairTailTold(s: string, st: State, tree: Json)
    requires st.In(s) && st.error == ERR_NONE && tree.Object?
    ensures var r := PairTail(s, st, tree); Told(s, r.ok, r.st) && Same(r, tree)
    decreases |s| - st.offset, 2
  {
    hide NextToken, ObjectNext, Told;
    TokenTold(s, st);
    var (ok3, st3) := NextToken(s, st);
    if ok3 {
      if st3.token.kind == COMMA { ObjectTold(s, st3, tree, false); }
      else if st3.token.kind != RCURLY { UnexpectedTold(s, st3); }
      else { UndoTold(s, st3); }
    }
  }

  // A parse that succeeds leaves no error. One that fails leaves ERR_BOUNDS only at the end of the
  // text, never ERR_INVALID, and none only behind a byte that counts as the end of the text.
  lemma ErrorTold(s: string)
    ensures var (st, tree) := Parse(s); Told(s, tree.Some?, st) && (tree.Some? ==> st.error == ERR_NONE)
  {
    hide NextToken, ObjectNext, ArrayNext, Expect, Told;
    TokenTold(s, START);
    var (ok, st) := NextToken(s, START);
    if ok && (st.token.kind == LCURLY || st.token.kind == LSQUARE) {
      var curly := st.token.kind == LCURLY;
      if curly { ObjectTold(s, st, Object(map[]), true); } else { ArrayTold(s, st, Array([]), true); }
      var sub := if curly then ObjectNext(s, st, Object(map[]), true) else ArrayNext(s, st, Array([]), true);
      if sub.ok {
        ExpectTold(s, sub.st, if curly then RCURLY else RSQUARE);
        if Expect(s, sub.st, if curly then RCURLY else RSQUARE).0 { ParseEnds(s); }
      }
    } else if ok {
      UnexpectedTold(s, st);
    }
  }

  lemma ParseEnds(s: string)
    requires Root(s).1.Some? && Root(s).0.error == ERR_NONE
    ensures var (st, tree) := Parse(s); Told(s, tree.Some?, st) && (tree.Some? ==> st.error == ERR_NONE)
  {
    hide Root;
  }

  // Such a failure: a NUL, or a byte 255, where a name or the end of an object should be.
  lemma FailsUntold(c: char, rest: string)
    requires IsEofByte(c)
    ensures var (st, tree) := Parse("{" + [c] + rest); tree == None && st.error == ERR_NONE
  {
    var s := "{" + [c] + rest;
    assert s[0] == '{' && s[1] == c;
    assert SkipWs(s, 0) == 0 && SkipWs(s, 1) == 1;
    assert NextToken(s, START) == (true, State(1, Token(LCURLY, 0, 1), ERR_NONE));
  }
}
