/**
 How the writer of src/data/json.c lays a text out: a scan of the text, character by character, that
 accepts whitespace only where it belongs, and that it accepts what is printed for syntax trees with
 this whitespace.
 */
module JsonLayout {
  import opened JsonGrammar

  predicate Opens(c: char) { c == '[' || c == '{' }
  predicate Closes(c: char) { c == ']' || c == '}' }

  // A line break and n spaces; nothing when the tab size is 0.
  predicate IsBreak(s: string, tab: nat, n: nat) {
    if tab == 0 then s == "" else |s| == n + 1 && s[0] == '\n' && forall k | 1 <= k <= n :: s[k] == ' '
  }

  function BreakLength(tab: nat, n: nat): nat { if tab == 0 then 0 else n + 1 }

  // s goes on with a line break and n spaces.
  predicate Breaks(s: string, tab: nat, n: nat) {
    BreakLength(tab, n) <= |s| && IsBreak(s[..BreakLength(tab, n)], tab, n)
  }

  // The rest of a text, inside a string or not, with `depth` brackets open. Outside strings: after an
  // opening bracket and after a comma the line ends, and the next one is indented by a tab for each
  // open bracket, unless a closing bracket follows the opening one at once; a colon is followed by one
  // space; before any other closing bracket the line ends too, and the bracket is indented like the
  // line of the one it closes. There is no other whitespace, and with a tab size of 0 none at all.
  predicate LaidOut(s: string, quoted: bool, depth: nat, tab: nat)
    decreases |s|
  {
    if s == "" then !quoted && depth == 0
    else if quoted then
      if s[0] == '\\' then |s| >= 2 && LaidOut(s[2..], true, depth, tab)
      else LaidOut(s[1..], s[0] != '"', depth, tab)
    else if s[0] == '"' then LaidOut(s[1..], true, depth, tab)
    else if Opens(s[0]) then
      if |s| >= 2 && Closes(s[1]) then LaidOut(s[2..], false, depth, tab)
      else
        Breaks(s[1..], tab, tab * (depth + 1)) &&
        LaidOut(s[1 + BreakLength(tab, tab * (depth + 1))..], false, depth + 1, tab)
    else if s[0] == ',' then
      Breaks(s[1..], tab, tab * depth) && LaidOut(s[1 + BreakLength(tab, tab * depth)..], false, depth, tab)
    else if s[0] == ':' then
      if tab == 0 then LaidOut(s[1..], false, depth, tab)
      else |s| >= 2 && s[1] == ' ' && LaidOut(s[2..], false, depth, tab)
    else if (if tab == 0 then Closes(s[0]) else s[0] == '\n') then
      depth > 0 && Breaks(s, tab, tab * (depth - 1)) &&
      var w := BreakLength(tab, tab * (depth - 1));
      w < |s| && Closes(s[w]) && LaidOut(s[w + 1..], false, depth - 1, tab)
    else !IsWs(s[0]) && !Closes(s[0]) && LaidOut(s[1..], false, depth, tab)
  }

  // ----- the whitespace of a syntax tree -----

  // The value begins on a line with this indent.
  predicate Shaped(c: Cst, tab: nat, indent: nat) {
    match c
    case EmptyArr(ws) => ws == ""
    case EmptyObj(ws) => ws == ""
    case Arr(elems) => ShapedElems(elems, tab, indent + tab, indent)
    case Obj(members) => ShapedMembers(members, tab, indent + tab, indent)
    case _ => true
  }

  predicate ShapedElems(es: Elems, tab: nat, inner: nat, outer: nat) {
    IsBreak(es.pre, tab, inner) && Shaped(es.value, tab, inner) &&
    match es
    case LastE(_, _, post) => IsBreak(post, tab, outer)
    case MoreE(_, _, post, rest) => post == "" && ShapedElems(rest, tab, inner, outer)
  }

  predicate IsGap(s: string, tab: nat) { s == if tab == 0 then "" else " " }

  predicate ShapedMembers(ms: Members, tab: nat, inner: nat, outer: nat) {
    IsBreak(ms.pre, tab, inner) && ms.mid == "" && IsGap(ms.gap, tab) && Shaped(ms.value, tab, inner) &&
    match ms
    case LastM(_, _, _, _, _, post) => IsBreak(post, tab, outer)
    case MoreM(_, _, _, _, _, post, rest) => post == "" && ShapedMembers(rest, tab, inner, outer)
  }

  // ----- scanning what is printed -----

  // Characters that the scan passes over.
  predicate IsPlain(c: char) { !IsWs(c) && c != '"' && !Opens(c) && !Closes(c) && c != ',' && c != ':' }

  lemma {:induction false} PlainScanned(s: string, rest: string, depth: nat, tab: nat)
    requires forall i | 0 <= i < |s| :: IsPlain(s[i])
    ensures LaidOut(s + rest, false, depth, tab) == LaidOut(rest, false, depth, tab)
    decreases |s|
  {
    if s == "" {
      assert s + rest == rest;
    } else {
      assert (s + rest)[1..] == s[1..] + rest && (s + rest)[0] == s[0];
      PlainScanned(s[1..], rest, depth, tab);
    }
  }

  lemma {:induction false} BodyScanned(s: string, rest: string, depth: nat, tab: nat)
    requires LooseBody(s)
    ensures LaidOut(s + "\"" + rest, true, depth, tab) == LaidOut(rest, false, depth, tab)
    decreases |s|
  {
    var t := s + "\"" + rest;
    if s == "" {
      assert t[1..] == rest && t[0] == '"';
    } else if s[0] != '\\' {
      assert t[0] == s[0] && t[1..] == s[1..] + "\"" + rest;
      BodyScanned(s[1..], rest, depth, tab);
    } else {
      assert t[0] == s[0] && t[2..] == s[2..] + "\"" + rest;
      EscapeBehind(s);
      BodyScanned(s[2..], rest, depth, tab);
    }
  }

  // What follows the first two characters of an escape is a body again.
  lemma EscapeBehind(s: string)
    requires s != "" && s[0] == '\\' && LooseBody(s)
    ensures |s| >= 2 && LooseBody(s[2..])
  {
    if !(IsEscapeLetter(s[1]) || s[1] == '\0') {
      var h := s[2..];
      assert s[6..] == h[4..] && h[1..][1..] == h[2..] && h[2..][1..] == h[3..] && h[3..][1..] == h[4..];
      assert LooseBody(h[4..]) && LooseBody(h[3..]) && LooseBody(h[2..]) && LooseBody(h[1..]);
    }
  }

  // ----- a bracket, a comma or a name, with the whitespace that belongs to it -----

  lemma BreakThere(pre: string, text: string, tab: nat, n: nat)
    requires IsBreak(pre, tab, n)
    ensures |pre| == BreakLength(tab, n) && Breaks(pre + text, tab, n) && (pre + text)[|pre|..] == text
  {
    assert (pre + text)[..|pre|] == pre;
  }

  lemma OpenScanned(o: char, pre: string, text: string, depth: nat, tab: nat)
    requires Opens(o) && IsBreak(pre, tab, tab * (depth + 1)) && text != "" && !Closes(text[0])
    ensures LaidOut([o] + (pre + text), false, depth, tab) == LaidOut(text, false, depth + 1, tab)
  {
    hide Breaks;
    var s := [o] + (pre + text);
    BreakThere(pre, text, tab, tab * (depth + 1));
    assert s[1..] == pre + text && s[1 + |pre|..] == text;
    assert !Closes(s[1]);
  }

  lemma CommaScanned(pre: string, text: string, depth: nat, tab: nat)
    requires IsBreak(pre, tab, tab * depth)
    ensures LaidOut("," + (pre + text), false, depth, tab) == LaidOut(text, false, depth, tab)
  {
    hide Breaks;
    var s := "," + (pre + text);
    BreakThere(pre, text, tab, tab * depth);
    assert s[1..] == pre + text && s[1 + |pre|..] == text;
  }

  lemma CloseScanned(post: string, c: char, rest: string, depth: nat, tab: nat)
    requires Closes(c) && IsBreak(post, tab, tab * depth)
    ensures LaidOut(post + ([c] + rest), false, depth + 1, tab) == LaidOut(rest, false, depth, tab)
  {
    hide Breaks;
    var s := post + ([c] + rest);
    BreakThere(post, [c] + rest, tab, tab * depth);
    assert s[|post|] == c && s[|post| + 1..] == rest;
  }

  lemma NameScanned(name: string, gap: string, text: string, depth: nat, tab: nat)
    requires LooseBody(name) && IsGap(gap, tab)
    ensures LaidOut("\"" + name + "\"" + (":" + (gap + text)), false, depth, tab) == LaidOut(text, false, depth, tab)
  {
    hide Breaks, LooseBody;
    var after := ":" + (gap + text);
    var s := "\"" + name + "\"" + after;
    assert s[0] == '"' && s[1..] == name + "\"" + after;
    BodyScanned(name, after, depth, tab);
    assert after[1..] == gap + text;
    if tab > 0 { assert after[2..] == text; } else { assert gap + text == text; }
  }

  lemma StringScanned(body: string, rest: string, depth: nat, tab: nat)
    requires LooseBody(body)
    ensures LaidOut("\"" + body + "\"" + rest, false, depth, tab) == LaidOut(rest, false, depth, tab)
  {
    hide Breaks, LooseBody;
    var s := "\"" + body + "\"" + rest;
    assert s[0] == '"' && s[1..] == body + "\"" + rest;
    BodyScanned(body, rest, depth, tab);
  }

  lemma EmptyScanned(o: char, c: char, rest: string, depth: nat, tab: nat)
    requires Opens(o) && Closes(c)
    ensures LaidOut([o, c] + rest, false, depth, tab) == LaidOut(rest, false, depth, tab)
  {
    hide Breaks;
    assert ([o, c] + rest)[2..] == rest;
  }

  // ----- values -----

  lemma FirstCharacter(c: Cst)
    requires Valid(c)
    ensures Print(c) != "" && !Closes(Print(c)[0])
  {
  }

  lemma NumberPlain(minus: string, whole: string, frac: string, exp: string)
    requires Valid(Num(minus, whole, frac, exp))
    ensures forall i | 0 <= i < |minus + whole + frac + exp| :: IsPlain((minus + whole + frac + exp)[i])
  {
    DigitsPlain(whole);
    FracPlain(frac);
    ExpPlain(exp);
    hide ValidInt, ValidFrac, ValidExp;
  }

  lemma DigitsPlain(s: string)
    ensures ValidInt(s) ==> forall i | 0 <= i < |s| :: IsPlain(s[i])
  {
  }

  lemma FracPlain(s: string)
    ensures ValidFrac(s) ==> forall i | 0 <= i < |s| :: IsPlain(s[i])
  {
    if ValidFrac(s) && s != "" {
      forall i | 1 <= i < |s| ensures IsPlain(s[i]) { assert s[i] == s[1..][i - 1]; }
    }
  }

  lemma ExpPlain(s: string)
    ensures ValidExp(s) ==> forall i | 0 <= i < |s| :: IsPlain(s[i])
  {
    if ValidExp(s) && s != "" {
      var k := if |s| >= 2 && (s[1] == '+' || s[1] == '-') then 2 else 1;
      forall i | k <= i < |s| ensures IsPlain(s[i]) { assert s[i] == s[k..][i - k]; }
    }
  }

  lemma WordPlain(word: string)
    requires word == "true" || word == "false" || word == "null"
    ensures forall i | 0 <= i < |word| :: IsPlain(word[i])
  {
  }

  // Scanning a value leads to what follows it, with as many brackets open as before.
  lemma {:induction false} ValueScanned(c: Cst, rest: string, depth: nat, tab: nat)
    requires Valid(c) && Shaped(c, tab, tab * depth)
    ensures LaidOut(Print(c) + rest, false, depth, tab) == LaidOut(rest, false, depth, tab)
    decreases c
  {
    hide LaidOut, IsBreak, ValidInt, ValidFrac, ValidExp, LooseBody;
    match c {
      case Num(minus, whole, frac, exp) =>
        NumberPlain(minus, whole, frac, exp);
        PlainScanned(Print(c), rest, depth, tab);
      case Str(body) => StringScanned(body, rest, depth, tab);
      case Word(word) =>
        WordPlain(word);
        PlainScanned(word, rest, depth, tab);
      case EmptyArr(ws) =>
        EmptyScanned('[', ']', rest, depth, tab);
        assert Print(c) == ['[', ']'];
      case EmptyObj(ws) =>
        EmptyScanned('{', '}', rest, depth, tab);
        assert Print(c) == ['{', '}'];
      case Arr(es) => ArrayScanned(es, rest, depth, tab);
      case Obj(ms) => ObjectScanned(ms, rest, depth, tab);
    }
  }

  // What is printed for elements after the whitespace in front of the first.
  function Behind(es: Elems): string {
    Print(es.value) + if es.MoreE? then "," + PrintElems(es.rest) else es.post
  }

  lemma ElemsBehind(es: Elems)
    requires es.MoreE? ==> es.post == ""
    ensures PrintElems(es) == es.pre + Behind(es)
  {
    hide Print, PrintElems;
    var pre, own := es.pre, Print(es.value);
    match es {
      case LastE(_, _, post) =>
        ElemsText(es);
        assert pre + own + post == pre + (own + post);
      case MoreE(_, _, post, next) =>
        ElemsText(es);
        var more := "," + PrintElems(next);
        assert pre + own + "" + "," + PrintElems(next) == pre + (own + more);
    }
  }

  lemma ElemsText(es: Elems)
    ensures PrintElems(es) == match es
      case LastE(pre, value, post) => pre + Print(value) + post
      case MoreE(pre, value, post, next) => pre + Print(value) + post + "," + PrintElems(next)
  {
  }

  lemma {:induction false} ElemsScanned(es: Elems, rest: string, depth: nat, tab: nat)
    requires ValidElems(es) && ShapedElems(es, tab, tab * (depth + 1), tab * depth)
    ensures LaidOut(Behind(es) + ("]" + rest), false, depth + 1, tab) == LaidOut(rest, false, depth, tab)
    decreases es, 0
  {
    hide LaidOut, Print, PrintElems, Valid, Shaped, IsBreak;
    var own, tail := Print(es.value), "]" + rest;
    match es {
      case LastE(_, value, post) =>
        assert Behind(es) + tail == own + (post + tail);
        ValueScanned(value, post + tail, depth + 1, tab);
        CloseScanned(post, ']', rest, depth, tab);
      case MoreE(_, value, _, next) =>
        ElemsBehind(next);
        var text := Behind(next) + tail;
        assert Behind(es) + tail == own + ("," + (next.pre + text));
        ValueScanned(value, "," + (next.pre + text), depth + 1, tab);
        CommaScanned(next.pre, text, depth + 1, tab);
        ElemsScanned(next, rest, depth, tab);
    }
  }

  lemma Bracketed(open: char, pre: string, text: string, close: char, rest: string)
    ensures [open] + (pre + text) + [close] + rest == [open] + (pre + (text + ([close] + rest)))
  {
  }

  lemma ArrayText(es: Elems, rest: string)
    requires es.MoreE? ==> es.post == ""
    ensures Print(Arr(es)) + rest == ['['] + (es.pre + (Behind(es) + ([']'] + rest)))
  {
    ElemsBehind(es);
    assert Print(Arr(es)) == ['['] + PrintElems(es) + [']'];
    hide Print, PrintElems, Behind;
    Bracketed('[', es.pre, Behind(es), ']', rest);
  }

  lemma {:induction false} ArrayScanned(es: Elems, rest: string, depth: nat, tab: nat)
    requires Valid(Arr(es)) && Shaped(Arr(es), tab, tab * depth)
    ensures LaidOut(Print(Arr(es)) + rest, false, depth, tab) == LaidOut(rest, false, depth, tab)
    decreases es, 1
  {
    NextIndent(tab, depth);
    assert ValidElems(es) && ShapedElems(es, tab, tab * (depth + 1), tab * depth);
    assert IsBreak(es.pre, tab, tab * (depth + 1)) && (es.MoreE? ==> es.post == "");
    FirstCharacter(es.value);
    hide LaidOut, Print, PrintElems, Valid, Shaped, ValidElems, ShapedElems, IsBreak;
    ArrayText(es, rest);
    OpenScanned('[', es.pre, Behind(es) + ("]" + rest), depth, tab);
    ElemsScanned(es, rest, depth, tab);
  }

  lemma NextIndent(tab: nat, depth: nat)
    ensures tab * (depth + 1) == tab * depth + tab
  {
  }

  // The same for members.
  function BehindMember(ms: Members): string {
    "\"" + ms.name + "\"" + (":" + (ms.gap + (Print(ms.value) + if ms.MoreM? then "," + PrintMembers(ms.rest) else ms.post)))
  }

  lemma Spread(pre: string, name: string, gap: string, own: string, post: string, more: string)
    ensures pre + "\"" + name + "\"" + "" + ":" + gap + own + post + more == pre + ("\"" + name + "\"" + (":" + (gap + (own + (post + more)))))
  {
    var a, b := pre + "\"" + name + "\"", "\"" + name + "\"";
    assert a == pre + b;
    assert a + "" + ":" + gap + own + post + more == a + (":" + (gap + (own + (post + more))));
    assert pre + b + (":" + (gap + (own + (post + more)))) == pre + (b + (":" + (gap + (own + (post + more)))));
  }

  lemma MembersText(ms: Members)
    requires ms.mid == ""
    ensures PrintMembers(ms) == ms.pre + "\"" + ms.name + "\"" + "" + ":" + ms.gap + Print(ms.value) + ms.post +
                                if ms.MoreM? then "," + PrintMembers(ms.rest) else ""
  {
  }

  lemma MembersBehind(ms: Members)
    requires ms.mid == "" && (ms.MoreM? ==> ms.post == "")
    ensures PrintMembers(ms) == ms.pre + BehindMember(ms)
  {
    MembersText(ms);
    hide Print, PrintMembers;
    var more := if ms.MoreM? then "," + PrintMembers(ms.rest) else "";
    Spread(ms.pre, ms.name, ms.gap, Print(ms.value), ms.post, more);
    assert ms.post + more == if ms.MoreM? then more else ms.post;
  }

  lemma {:induction false} MembersScanned(ms: Members, rest: string, depth: nat, tab: nat)
    requires ValidMembers(ms) && ShapedMembers(ms, tab, tab * (depth + 1), tab * depth)
    ensures LaidOut(BehindMember(ms) + ("}" + rest), false, depth + 1, tab) == LaidOut(rest, false, depth, tab)
    decreases ms, 0
  {
    hide LaidOut, Print, PrintMembers, Valid, Shaped, IsBreak, LooseBody;
    var own, tail := Print(ms.value), "}" + rest;
    match ms {
      case LastM(_, name, _, gap, value, post) =>
        NameFirst(name, gap, own, post, tail);
        NameScanned(name, gap, own + (post + tail), depth + 1, tab);
        ValueScanned(value, post + tail, depth + 1, tab);
        CloseScanned(post, '}', rest, depth, tab);
      case MoreM(_, name, _, gap, value, _, next) =>
        MembersBehind(next);
        var text := BehindMember(next) + tail;
        NameFirst(name, gap, own, "," + PrintMembers(next), tail);
        assert "," + PrintMembers(next) + tail == "," + (next.pre + text);
        NameScanned(name, gap, own + ("," + (next.pre + text)), depth + 1, tab);
        ValueScanned(value, "," + (next.pre + text), depth + 1, tab);
        CommaScanned(next.pre, text, depth + 1, tab);
        MembersScanned(next, rest, depth, tab);
    }
  }

  lemma NameFirst(name: string, gap: string, own: string, more: string, tail: string)
    ensures "\"" + name + "\"" + (":" + (gap + (own + more))) + tail == "\"" + name + "\"" + (":" + (gap + (own + (more + tail))))
  {
    assert ":" + (gap + (own + more)) + tail == ":" + (gap + (own + (more + tail)));
  }

  lemma ObjectText(ms: Members, rest: string)
    requires ms.mid == "" && (ms.MoreM? ==> ms.post == "")
    ensures Print(Obj(ms)) + rest == ['{'] + (ms.pre + (BehindMember(ms) + (['}'] + rest)))
  {
    MembersBehind(ms);
    assert Print(Obj(ms)) == ['{'] + PrintMembers(ms) + ['}'];
    hide Print, PrintMembers, BehindMember;
    Bracketed('{', ms.pre, BehindMember(ms), '}', rest);
  }

  lemma {:induction false} ObjectScanned(ms: Members, rest: string, depth: nat, tab: nat)
    requires Valid(Obj(ms)) && Shaped(Obj(ms), tab, tab * depth)
    ensures LaidOut(Print(Obj(ms)) + rest, false, depth, tab) == LaidOut(rest, false, depth, tab)
    decreases ms, 1
  {
    NextIndent(tab, depth);
    assert ValidMembers(ms) && ShapedMembers(ms, tab, tab * (depth + 1), tab * depth);
    assert IsBreak(ms.pre, tab, tab * (depth + 1)) && ms.mid == "" && (ms.MoreM? ==> ms.post == "");
    hide LaidOut, Print, PrintMembers, Valid, Shaped, ValidMembers, ShapedMembers, IsBreak;
    ObjectText(ms, rest);
    var text := BehindMember(ms) + ("}" + rest);
    assert text[0] == '"';
    OpenScanned('{', ms.pre, text, depth, tab);
    MembersScanned(ms, rest, depth, tab);
  }

  // What is printed for a syntax tree with this whitespace is a text laid out so.
  lemma ShapedIsLaidOut(c: Cst, tab: nat)
    requires Valid(c) && Shaped(c, tab, 0)
    ensures LaidOut(Print(c), false, 0, tab)
  {
    hide Print, Valid, Shaped;
    assert tab * 0 == 0;
    ValueScanned(c, "", 0, tab);
    assert Print(c) + "" == Print(c);
  }
}
