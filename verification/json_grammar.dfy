/**
 The texts of sections 2 and 4 to 7 of RFC 8259, as the set of strings that a concrete
 syntax tree prints, and the value tree that such a syntax tree denotes.

 A byte of the C source is a `char` below 256; nothing here depends on that bound.
 */
module JsonGrammar {

  predicate IsWs(c: char) { c == ' ' || c == '\n' || c == '\r' || c == '\t' }
  predicate IsDigit(c: char) { '0' <= c <= '9' }
  predicate IsHex(c: char) { IsDigit(c) || 'a' <= c <= 'f' || 'A' <= c <= 'F' }
  predicate IsAlpha(c: char) { 'a' <= c <= 'z' || 'A' <= c <= 'Z' }
  predicate IsEscapeLetter(c: char) { c in "\"\\/bfnrt" }

  predicate AllWs(s: string) { forall i | 0 <= i < |s| :: IsWs(s[i]) }
  predicate AllDigits(s: string) { forall i | 0 <= i < |s| :: IsDigit(s[i]) }
  predicate NulFree(s: string) { forall i | 0 <= i < |s| :: s[i] != '\0' }

  // ----- value trees: what the parser builds (xjson_obj_t) -----

  datatype Kind = Number | Float | Text | Boolean | Null

  // Literals and string bodies keep their bytes; an object is a finite map from raw names.
  datatype Json =
    | Atom(kind: Kind, text: string)
    | Array(items: seq<Json>)
    | Object(members: map<string, Json>)

  // ----- concrete syntax trees -----

  datatype Cst =
    | Num(minus: string, whole: string, frac: string, exp: string)
    | Str(body: string)
    | Word(word: string)
    | EmptyArr(ws: string)
    | Arr(elems: Elems)
    | EmptyObj(ws: string)
    | Obj(members: Members)

  // value *( value-separator value ), with the whitespace around each value
  datatype Elems =
    | LastE(pre: string, value: Cst, post: string)
    | MoreE(pre: string, value: Cst, post: string, rest: Elems)

  // member *( value-separator member )
  datatype Members =
    | LastM(pre: string, name: string, mid: string, gap: string, value: Cst, post: string)
    | MoreM(pre: string, name: string, mid: string, gap: string, value: Cst, post: string, rest: Members)

  // ----- the string each tree prints -----

  function Print(c: Cst): string {
    match c
    case Num(minus, whole, frac, exp) => minus + whole + frac + exp
    case Str(body) => "\"" + body + "\""
    case Word(word) => word
    case EmptyArr(ws) => "[" + ws + "]"
    case Arr(elems) => "[" + PrintElems(elems) + "]"
    case EmptyObj(ws) => "{" + ws + "}"
    case Obj(members) => "{" + PrintMembers(members) + "}"
  }

  function PrintElems(es: Elems): string {
    match es
    case LastE(pre, value, post) => pre + Print(value) + post
    case MoreE(pre, value, post, rest) => pre + Print(value) + post + "," + PrintElems(rest)
  }

  function PrintMember(pre: string, name: string, mid: string, gap: string, value: string, post: string): string {
    pre + "\"" + name + "\"" + mid + ":" + gap + value + post
  }

  function PrintMembers(ms: Members): string {
    match ms
    case LastM(pre, name, mid, gap, value, post) => PrintMember(pre, name, mid, gap, Print(value), post)
    case MoreM(pre, name, mid, gap, value, post, rest) =>
      PrintMember(pre, name, mid, gap, Print(value), post) + "," + PrintMembers(rest)
  }

  // ----- the grammar's side conditions -----

  // int = zero / ( digit1-9 *DIGIT )
  predicate ValidInt(s: string) {
    s == "0" || (s != "" && '1' <= s[0] <= '9' && AllDigits(s))
  }

  // frac = decimal-point 1*DIGIT
  predicate ValidFrac(s: string) {
    s == "" || (|s| >= 2 && s[0] == '.' && AllDigits(s[1..]))
  }

  // exp = e [ minus / plus ] 1*DIGIT
  predicate ValidExp(s: string) {
    s == "" ||
    ((s[0] == 'e' || s[0] == 'E') &&
     var i := if |s| >= 2 && (s[1] == '+' || s[1] == '-') then 2 else 1;
     |s| > i && AllDigits(s[i..]))
  }

  // *char: unescaped characters and escape sequences up to, and without, the closing quote
  predicate ValidBody(s: string) {
    s == "" ||
    if s[0] != '\\' then s[0] >= ' ' && s[0] != '"' && ValidBody(s[1..])
    else if |s| >= 2 && IsEscapeLetter(s[1]) then ValidBody(s[2..])
    else |s| >= 6 && s[1] == 'u' && IsHex(s[2]) && IsHex(s[3]) && IsHex(s[4]) && IsHex(s[5]) && ValidBody(s[6..])
  }

  // The same with a NUL for an escape letter, which strchr finds at the end of its set.
  predicate LooseBody(s: string) {
    s == "" ||
    if s[0] != '\\' then s[0] >= ' ' && s[0] != '"' && LooseBody(s[1..])
    else if |s| >= 2 && (IsEscapeLetter(s[1]) || s[1] == '\0') then LooseBody(s[2..])
    else |s| >= 6 && s[1] == 'u' && IsHex(s[2]) && IsHex(s[3]) && IsHex(s[4]) && IsHex(s[5]) && LooseBody(s[6..])
  }

  // The bodies of section 7 are those without a NUL.
  lemma {:induction false} ValidIsLoose(s: string)
    ensures ValidBody(s) <==> LooseBody(s) && NulFree(s)
  {
    if s != "" {
      var k := if s[0] != '\\' then 1 else if |s| >= 2 && (IsEscapeLetter(s[1]) || s[1] == '\0') then 2 else 6;
      if k <= |s| {
        ValidIsLoose(s[k..]);
        assert s == s[..k] + s[k..];
      }
    }
  }

  predicate Valid(c: Cst) {
    match c
    case Num(minus, whole, frac, exp) =>
      (minus == "" || minus == "-") && ValidInt(whole) && ValidFrac(frac) && ValidExp(exp)
    case Str(body) => LooseBody(body)
    case Word(word) => word == "true" || word == "false" || word == "null"
    case EmptyArr(ws) => AllWs(ws)
    case Arr(elems) => ValidElems(elems)
    case EmptyObj(ws) => AllWs(ws)
    case Obj(members) => ValidMembers(members)
  }

  predicate ValidElems(es: Elems) {
    AllWs(es.pre) && AllWs(es.post) && Valid(es.value) && (es.MoreE? ==> ValidElems(es.rest))
  }

  predicate ValidMembers(ms: Members) {
    AllWs(ms.pre) && AllWs(ms.mid) && AllWs(ms.gap) && AllWs(ms.post) &&
    LooseBody(ms.name) && Valid(ms.value) && (ms.MoreM? ==> ValidMembers(ms.rest))
  }

  // Every string is one of section 7.
  predicate Strict(c: Cst) {
    match c
    case Str(body) => ValidBody(body)
    case Arr(elems) => StrictElems(elems)
    case Obj(members) => StrictMembers(members)
    case _ => true
  }

  predicate StrictElems(es: Elems) {
    Strict(es.value) && (es.MoreE? ==> StrictElems(es.rest))
  }

  predicate StrictMembers(ms: Members) {
    ValidBody(ms.name) && Strict(ms.value) && (ms.MoreM? ==> StrictMembers(ms.rest))
  }

  // ----- raw names, pairwise distinct in each object -----

  // A name is a C string: copying it stops at the first NUL.
  function CString(s: string): string {
    if s == "" || s[0] == '\0' then "" else [s[0]] + CString(s[1..])
  }

  lemma {:induction false} CStringNulFree(s: string)
    requires NulFree(s)
    ensures CString(s) == s
  {
    if s != "" {
      CStringNulFree(s[1..]);
      assert s == [s[0]] + s[1..];
    }
  }

  function Names(ms: Members): set<string> {
    {CString(ms.name)} + if ms.MoreM? then Names(ms.rest) else {}
  }

  predicate Distinct(c: Cst) {
    match c
    case Arr(elems) => DistinctElems(elems)
    case Obj(members) => DistinctMembers(members)
    case _ => true
  }

  predicate DistinctElems(es: Elems) {
    Distinct(es.value) && (es.MoreE? ==> DistinctElems(es.rest))
  }

  predicate DistinctMembers(ms: Members) {
    Distinct(ms.value) && (ms.MoreM? ==> CString(ms.name) !in Names(ms.rest) && DistinctMembers(ms.rest))
  }

  // ----- the value a syntax tree denotes -----

  function Tree(c: Cst): Json {
    match c
    case Num(minus, whole, frac, exp) => Atom(if frac == "" && exp == "" then Number else Float, Print(c))
    case Str(body) => Atom(Text, body)
    case Word(word) => Atom(if word == "null" then Null else Boolean, word)
    case EmptyArr(_) => Array([])
    case Arr(elems) => Array(TreeElems(elems))
    case EmptyObj(_) => Object(map[])
    case Obj(members) => Object(TreeMembers(members))
  }

  function TreeElems(es: Elems): seq<Json> {
    [Tree(es.value)] + if es.MoreE? then TreeElems(es.rest) else []
  }

  function TreeMembers(ms: Members): (m: map<string, Json>)
    ensures m.Keys == Names(ms)
  {
    (if ms.MoreM? then TreeMembers(ms.rest) else map[]) + map[CString(ms.name) := Tree(ms.value)]
  }

  predicate IsContainer(c: Cst) { c.EmptyArr? || c.Arr? || c.EmptyObj? || c.Obj? }

  // JSON-text = ws value ws, restricted to a top-level object or array
  predicate Derives(s: string, lead: string, c: Cst, trail: string) {
    s == lead + Print(c) + trail && AllWs(lead) && AllWs(trail) && Valid(c) && IsContainer(c)
  }

  ghost predicate InGrammar(s: string) {
    exists lead, c, trail :: Derives(s, lead, c, trail) && Distinct(c) && Strict(c)
  }

  // The grammar with NUL for an escape letter.
  ghost predicate InLooseGrammar(s: string) {
    exists lead, c, trail :: Derives(s, lead, c, trail) && Distinct(c)
  }

  // ----- trees the parser can produce -----

  predicate IsNumberText(kind: Kind, s: string, minus: string, whole: string, frac: string, exp: string) {
    s == minus + whole + frac + exp && Valid(Num(minus, whole, frac, exp)) &&
    (kind == Number <==> frac == "" && exp == "")
  }

  ghost predicate WellFormed(j: Json) {
    match j
    case Atom(kind, text) =>
      (match kind
       case Text => ValidBody(text)
       case Boolean => text == "true" || text == "false"
       case Null => text == "null"
       case _ => exists minus, whole, frac, exp :: IsNumberText(kind, text, minus, whole, frac, exp))
    case Array(items) => forall i | 0 <= i < |items| :: WellFormed(items[i])
    case Object(members) => forall k | k in members :: ValidBody(k) && WellFormed(members[k])
  }

  // The tree of every valid syntax tree is well-formed.
  lemma {:induction false} TreeWellFormed(c: Cst)
    requires Valid(c) && Strict(c)
    ensures WellFormed(Tree(c))
    decreases c
  {
    match c
    case Num(minus, whole, frac, exp) =>
      assert IsNumberText(Tree(c).kind, Print(c), minus, whole, frac, exp);
    case Arr(elems) => TreeElemsWellFormed(elems);
    case Obj(members) => TreeMembersWellFormed(members);
    case _ =>
  }

  lemma {:induction false} TreeElemsWellFormed(es: Elems)
    requires ValidElems(es) && StrictElems(es)
    ensures forall i | 0 <= i < |TreeElems(es)| :: WellFormed(TreeElems(es)[i])
    decreases es
  {
    TreeWellFormed(es.value);
    if es.MoreE? { TreeElemsWellFormed(es.rest); }
  }

  lemma {:induction false} TreeMembersWellFormed(ms: Members)
    requires ValidMembers(ms) && StrictMembers(ms)
    ensures forall k | k in TreeMembers(ms) :: ValidBody(k) && WellFormed(TreeMembers(ms)[k])
    decreases ms
  {
    ValidIsLoose(ms.name);
    CStringNulFree(ms.name);
    TreeWellFormed(ms.value);
    if ms.MoreM? { TreeMembersWellFormed(ms.rest); }
  }

  // ----- and only of those with the strings of section 7 -----

  // A body cut at a NUL ends with a backslash, so it is not one of section 7.
  lemma {:induction false} CutIsNotValid(s: string)
    requires LooseBody(s) && ValidBody(CString(s))
    ensures NulFree(s)
    decreases |s|
  {
    if s != "" {
      var k := if s[0] != '\\' then 1 else if IsEscapeLetter(s[1]) || s[1] == '\0' then 2 else 6;
      if !(k == 2 && s[1] == '\0') {
        CutBehind(s, k);
        assert CString(s)[k..] == CString(s[k..]);
        CutIsNotValid(s[k..]);
        assert s == s[..k] + s[k..];
      }
    }
  }

  lemma {:induction false} CutBehind(s: string, k: nat)
    requires k <= |s| && forall i | 0 <= i < k :: s[i] != '\0'
    ensures CString(s) == s[..k] + CString(s[k..])
    decreases k
  {
    if k > 0 {
      CutBehind(s[1..], k - 1);
      assert s[1..][k - 1..] == s[k..];
      assert s[..k] == [s[0]] + s[1..][..k - 1];
    } else {
      assert s[0..] == s;
    }
  }

  // So what denotes a well-formed value has only strings of section 7.
  lemma {:induction false} WellFormedStrict(c: Cst)
    requires Valid(c) && Distinct(c) && WellFormed(Tree(c))
    ensures Strict(c)
    decreases c
  {
    match c
    case Arr(es) => ElemsStrict(es);
    case Obj(ms) => MembersStrict(ms);
    case _ =>
  }

  lemma {:induction false} ElemsStrict(es: Elems)
    requires ValidElems(es) && DistinctElems(es) && forall i | 0 <= i < |TreeElems(es)| :: WellFormed(TreeElems(es)[i])
    ensures StrictElems(es)
    decreases es
  {
    hide Valid, Distinct, Tree, WellFormed, Strict;
    assert TreeElems(es)[0] == Tree(es.value);
    WellFormedStrict(es.value);
    if es.MoreE? {
      assert forall i | 0 <= i < |TreeElems(es.rest)| :: TreeElems(es.rest)[i] == TreeElems(es)[i + 1];
      ElemsStrict(es.rest);
    }
  }

  lemma {:induction false} MembersStrict(ms: Members)
    requires ValidMembers(ms) && DistinctMembers(ms)
    requires forall k | k in TreeMembers(ms) :: ValidBody(k) && WellFormed(TreeMembers(ms)[k])
    ensures StrictMembers(ms)
    decreases ms
  {
    hide Valid, Distinct, Tree, WellFormed, Strict, ValidBody, LooseBody, CString;
    var k := CString(ms.name);
    assert k in TreeMembers(ms) && TreeMembers(ms)[k] == Tree(ms.value);
    CutIsNotValid(ms.name);
    ValidIsLoose(ms.name);
    WellFormedStrict(ms.value);
    if ms.MoreM? {
      assert forall q | q in TreeMembers(ms.rest) :: q in TreeMembers(ms) && TreeMembers(ms.rest)[q] == TreeMembers(ms)[q];
      MembersStrict(ms.rest);
    }
  }
}
