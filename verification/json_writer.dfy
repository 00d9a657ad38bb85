/**
 The JSON writer: a text buffer that grows in place, indentation, and the recursive printing
 of a value tree. Each printing method also returns the syntax tree of what it printed.
 */
module JsonWriter {
  import opened Options
  import opened JsonGrammar
  import opened JsonParser
  import opened JsonEscape
  import opened JsonLayout
  import opened JsonTheorems
  import JsonSize

  function Spaces(n: nat): (s: string)
    ensures |s| == n && (forall i | 0 <= i < n :: s[i] == ' ') && AllWs(s)
  {
    seq(n, _ => ' ')
  }

  // ----- a sequence of printed elements or members -----

  datatype Part = Part(pre: string, name: string, gap: string, value: Cst, post: string)

  // A part on a line of its own, with an indent of n.
  predicate ValidPart(p: Part, tab: nat, n: nat) {
    && AllWs(p.pre) && AllWs(p.gap) && AllWs(p.post) && ValidBody(p.name) && Valid(p.value) && Distinct(p.value)
    && IsBreak(p.pre, tab, n) && IsGap(p.gap, tab) && Shaped(p.value, tab, n)
  }

  function ElemsOf(parts: seq<Part>): Elems
    requires parts != []
  {
    var p := parts[0];
    if |parts| == 1 then LastE(p.pre, p.value, p.post) else MoreE(p.pre, p.value, p.post, ElemsOf(parts[1..]))
  }

  function MembersOf(parts: seq<Part>): Members
    requires parts != []
  {
    var p := parts[0];
    if |parts| == 1 then LastM(p.pre, p.name, "", p.gap, p.value, p.post)
    else MoreM(p.pre, p.name, "", p.gap, p.value, p.post, MembersOf(parts[1..]))
  }

  function PrintPart(p: Part, named: bool): string {
    if named then PrintMember(p.pre, p.name, "", p.gap, Print(p.value), p.post) else p.pre + Print(p.value) + p.post
  }

  // The parts joined by commas, as the loops of the writer produce them.
  function Joined(parts: seq<Part>, named: bool): string {
    if parts == [] then ""
    else if |parts| == 1 then PrintPart(parts[0], named)
    else Joined(parts[..|parts| - 1], named) + "," + PrintPart(parts[|parts| - 1], named)
  }

  lemma {:induction false} JoinedFront(parts: seq<Part>, named: bool)
    requires |parts| >= 2
    ensures Joined(parts, named) == PrintPart(parts[0], named) + "," + Joined(parts[1..], named)
  {
    hide PrintPart;
    if |parts| > 2 {
      var n := |parts| - 1;
      JoinedFront(parts[..n], named);
      assert parts[..n][1..] == parts[1..][..n - 1];
      var a, b, c := PrintPart(parts[0], named), Joined(parts[..n][1..], named), PrintPart(parts[n], named);
      assert a + "," + b + "," + c == a + "," + (b + "," + c);
    }
  }

  lemma {:induction false} JoinedElems(parts: seq<Part>)
    requires parts != []
    ensures PrintElems(ElemsOf(parts)) == Joined(parts, false)
  {
    hide Print;
    if |parts| > 1 {
      JoinedElems(parts[1..]);
      JoinedFront(parts, false);
    }
  }

  lemma {:induction false} JoinedMembers(parts: seq<Part>)
    requires parts != []
    ensures PrintMembers(MembersOf(parts)) == Joined(parts, true)
  {
    hide Print, PrintMember;
    if |parts| > 1 {
      JoinedMembers(parts[1..]);
      JoinedFront(parts, true);
    }
  }

  predicate AllParts(parts: seq<Part>, tab: nat, n: nat) {
    forall i | 0 <= i < |parts| :: ValidPart(parts[i], tab, n) && (i < |parts| - 1 ==> parts[i].post == "")
  }

  function Trees(parts: seq<Part>): seq<Json> { seq(|parts|, i requires 0 <= i < |parts| => Tree(parts[i].value)) }

  lemma {:induction false} ElemsOfValid(parts: seq<Part>, tab: nat, n: nat, outer: nat)
    requires parts != [] && AllParts(parts, tab, n) && IsBreak(parts[|parts| - 1].post, tab, outer)
    ensures ValidElems(ElemsOf(parts)) && DistinctElems(ElemsOf(parts)) && TreeElems(ElemsOf(parts)) == Trees(parts)
    ensures ShapedElems(ElemsOf(parts), tab, n, outer)
  {
    hide Valid, Distinct, Tree, Shaped, IsBreak;
    if |parts| > 1 {
      ElemsOfValid(parts[1..], tab, n, outer);
      assert Trees(parts) == [Tree(parts[0].value)] + Trees(parts[1..]);
    }
  }

  lemma NoParts(tab: nat, n: nat)
    ensures AllParts([], tab, n) && Trees([]) == []
  {
  }

  lemma OneMorePart(parts: seq<Part>, p: Part, tab: nat, n: nat)
    requires parts != [] ==> parts[|parts| - 1].post == ""
    ensures AllParts(parts, tab, n) && ValidPart(p, tab, n) ==> AllParts(parts + [p], tab, n)
  {
    hide ValidPart;
  }

  lemma OneMoreTree(parts: seq<Part>, p: Part)
    ensures Trees(parts + [p]) == Trees(parts) + [Tree(p.value)]
  {
    hide Tree;
  }

  predicate DistinctNames(parts: seq<Part>) { forall i, j | 0 <= i < j < |parts| :: parts[i].name != parts[j].name }

  // The parts print the members of `m`, each once.
  predicate Covers(parts: seq<Part>, m: map<string, Json>) {
    DistinctNames(parts) &&
    (forall i | 0 <= i < |parts| :: parts[i].name in m && Tree(parts[i].value) == m[parts[i].name]) &&
    (forall k | k in m :: exists i | 0 <= i < |parts| :: parts[i].name == k)
  }

  lemma {:induction false} MembersOfNames(parts: seq<Part>, tab: nat, n: nat)
    requires parts != [] && AllParts(parts, tab, n)
    ensures Names(MembersOf(parts)) == set p | p in parts :: p.name
  {
    hide CString, Valid, Distinct, ValidBody, Shaped, IsBreak;
    BodyNulFree(parts[0].name);
    if |parts| > 1 {
      MembersOfNames(parts[1..], tab, n);
      assert parts == [parts[0]] + parts[1..];
    }
  }

  lemma {:induction false} MembersOfValid(parts: seq<Part>, tab: nat, n: nat, outer: nat)
    requires parts != [] && AllParts(parts, tab, n) && DistinctNames(parts) && IsBreak(parts[|parts| - 1].post, tab, outer)
    ensures ValidMembers(MembersOf(parts)) && DistinctMembers(MembersOf(parts))
    ensures ShapedMembers(MembersOf(parts), tab, n, outer)
  {
    hide Valid, Distinct, ValidBody, LooseBody, CString, Shaped, IsBreak, IsGap;
    BodyNulFree(parts[0].name);
    if |parts| > 1 {
      var rest := parts[1..];
      MembersOfValid(rest, tab, n, outer);
      MembersOfNames(rest, tab, n);
      assert parts[0].name !in Names(MembersOf(rest));
    }
  }

  lemma {:induction false} MembersOfLookup(parts: seq<Part>, i: nat, tab: nat, n: nat)
    requires i < |parts| && DistinctNames(parts) && AllParts(parts, tab, n)
    ensures parts[i].name in TreeMembers(MembersOf(parts))
    ensures TreeMembers(MembersOf(parts))[parts[i].name] == Tree(parts[i].value)
  {
    hide Tree, CString, Valid, Distinct, ValidBody, Shaped, IsBreak;
    BodyNulFree(parts[0].name);
    if i > 0 {
      assert parts[0].name != parts[i].name;
      MembersOfLookup(parts[1..], i - 1, tab, n);
    }
  }

  lemma MembersOfTree(parts: seq<Part>, m: map<string, Json>, tab: nat, n: nat, outer: nat)
    requires parts != [] && AllParts(parts, tab, n) && Covers(parts, m) && IsBreak(parts[|parts| - 1].post, tab, outer)
    ensures var ms := MembersOf(parts);
            ValidMembers(ms) && DistinctMembers(ms) && TreeMembers(ms) == m && ShapedMembers(ms, tab, n, outer)
  {
    hide Valid, Distinct, Tree, ValidBody, MembersOf, ValidMembers, DistinctMembers, TreeMembers, Names, ValidPart, ShapedMembers, IsBreak;
    MembersOfValid(parts, tab, n, outer);
    MembersOfNames(parts, tab, n);
    var t := TreeMembers(MembersOf(parts));
    assert t.Keys == m.Keys by {
      forall k | k in m ensures k in t.Keys {
        var i :| 0 <= i < |parts| && parts[i].name == k;
        assert parts[i] in parts;
      }
    }
    forall k | k in m ensures t[k] == m[k] {
      var i :| 0 <= i < |parts| && parts[i].name == k;
      MembersOfLookup(parts, i, tab, n);
    }
  }

  lemma PartOf(name: string, newLine: string, ind: string, gap: string, c: Cst, tab: nat, n: nat)
    requires AllWs(newLine) && AllWs(ind) && AllWs(gap) && (name == "" || ValidBody(name)) && Valid(c) && Distinct(c)
    requires IsBreak(newLine + ind, tab, n) && IsGap(gap, tab) && Shaped(c, tab, n)
    ensures ValidPart(Part(newLine + ind, name, gap, c, ""), tab, n)
  {
  }

  // ----- the text of a container while its loop runs -----

  // After `parts`; a comma follows them when there is `more` to come.
  function SoFar(head: string, parts: seq<Part>, named: bool, more: bool, newLine: string): string {
    head + Joined(parts, named) + (if more && parts != [] then "," else "") + newLine
  }

  function NameOf(p: Part, named: bool): string {
    if named then "\"" + p.name + "\":" + p.gap else ""
  }

  lemma Assoc(a: string, b: string, c: string)
    ensures a + b + c == a + (b + c)
  {
  }

  lemma SoFarEmpty(head: string, named: bool, more: bool, newLine: string)
    ensures SoFar(head, [], named, more, newLine) == head + newLine
  {
    assert head + "" + "" + newLine == head + newLine;
  }

  lemma PartText(p: Part, named: bool, newLine: string, ind: string)
    requires p.pre == newLine + ind && p.post == ""
    ensures PrintPart(p, named) == newLine + ind + NameOf(p, named) + Print(p.value)
  {
    hide Print;
    var own := Print(p.value);
    if named {
      assert PrintMember(p.pre, p.name, "", p.gap, own, "") == p.pre + NameOf(p, named) + own;
    } else {
      assert p.pre + own + "" == p.pre + "" + own;
    }
  }

  lemma JoinedSnoc(parts: seq<Part>, p: Part, named: bool)
    ensures Joined(parts + [p], named) ==
            if parts == [] then PrintPart(p, named) else Joined(parts, named) + "," + PrintPart(p, named)
  {
    hide PrintPart;
    assert (parts + [p])[..|parts|] == parts;
  }

  // x + (((n + i) + m) + v), flattened
  lemma Flatten(x: string, n: string, i: string, m: string, v: string)
    ensures x + (n + i + m + v) == x + n + i + m + v
  {
    Assoc(x, n + i + m, v);
    Assoc(x, n + i, m);
    Assoc(x, n, i);
  }

  lemma SoFarStep(head: string, parts: seq<Part>, p: Part, named: bool, more: bool, newLine: string, ind: string)
    requires p.pre == newLine + ind && p.post == ""
    ensures SoFar(head, parts, named, true, newLine) + ind + NameOf(p, named) + Print(p.value) +
            (if more then "," else "") + newLine == SoFar(head, parts + [p], named, more, newLine)
  {
    hide Print, PrintPart, Joined, NameOf;
    PartText(p, named, newLine, ind);
    JoinedSnoc(parts, p, named);
    var joined, part := Joined(parts, named), PrintPart(p, named);
    if parts == [] {
      SoFarEmpty(head, named, true, newLine);
      Flatten(head, newLine, ind, NameOf(p, named), Print(p.value));
    } else {
      Assoc(head, joined + ",", part);
      Assoc(head, joined, ",");
      Flatten(head + joined + ",", newLine, ind, NameOf(p, named), Print(p.value));
    }
  }

  // The whitespace before the closing bracket belongs to the last part.
  function Closed(parts: seq<Part>, post: string): seq<Part>
    requires parts != []
  {
    parts[|parts| - 1 := parts[|parts| - 1].(post := post)]
  }

  lemma ClosedText(head: string, parts: seq<Part>, named: bool, newLine: string, ind: string)
    requires parts != [] && parts[|parts| - 1].post == ""
    ensures SoFar(head, parts, named, false, newLine) + ind == head + Joined(Closed(parts, newLine + ind), named)
  {
    hide Print, Joined;
    var post := newLine + ind;
    var n := |parts| - 1;
    var p, before := parts[n], parts[..n];
    PartPost(p, post, named);
    assert parts == before + [p] && Closed(parts, post) == before + [p.(post := post)];
    JoinedSnoc(before, p, named);
    JoinedSnoc(before, p.(post := post), named);
    var joined := Joined(parts, named);
    if before != [] { Assoc(Joined(before, named) + ",", PrintPart(p, named), post); }
    assert Joined(Closed(parts, post), named) == joined + post;
    assert head + joined + "" + newLine + ind == head + joined + newLine + ind;
    Assoc(head + joined, newLine, ind);
    Assoc(head, joined, post);
  }

  lemma PartPost(p: Part, post: string, named: bool)
    requires p.post == ""
    ensures PrintPart(p.(post := post), named) == PrintPart(p, named) + post
  {
    hide Print;
  }

  // A syntax tree for a well-formed atom.
  ghost function AtomOf(kind: Kind, text: string): Cst {
    match kind
    case Text => Str(text)
    case Boolean => Word(text)
    case Null => Word(text)
    case _ =>
      if exists minus, whole, frac, exp :: IsNumberText(kind, text, minus, whole, frac, exp) then
        var minus, whole, frac, exp :| IsNumberText(kind, text, minus, whole, frac, exp);
        Num(minus, whole, frac, exp)
      else Word(text)
  }

  lemma AtomPrints(kind: Kind, text: string, tab: nat, indent: nat)
    requires WellFormed(Atom(kind, text))
    ensures var c := AtomOf(kind, text);
            Valid(c) && Distinct(c) && Tree(c) == Atom(kind, text) &&
            Print(c) == (if kind == Text then "\"" + Escape(CString(text)) + "\"" else CString(text)) &&
            Print(c) != "" && |Print(c)| == JsonSize.Size(Atom(kind, text), tab, indent) && Shaped(c, tab, indent)
  {
    if kind == Text {
      BodyNulFree(text);
      EscapeIdentity(text);
    } else {
      PrintNulFree(AtomOf(kind, text));
      CStringNulFree(text);
    }
  }

  // ======================= the writer =======================

  class Writer {
    var data: array<char>
    var nSize: nat
    var nAvail: nat
    var nLength: nat
    var nIndents: nat
    const nTabSize: nat
    const nAlloc: bool

    // The text is a C string: one byte is always kept for its terminator.
    ghost predicate Valid()
      reads this`data, this`nSize, this`nAvail, this`nLength, data
    {
      data.Length == nSize && nLength + nAvail == nSize && nAvail >= 1 && data[nLength] == '\0'
    }

    ghost function Text(): string
      requires Valid()
      reads this`data, this`nSize, this`nAvail, this`nLength, data
    {
      data[..nLength]
    }

    // There is room for n more, or there can be.
    ghost predicate Fits(n: nat)
      requires Valid()
      reads this`data, this`nSize, this`nAvail, this`nLength, data
    {
      nAlloc || |Text()| + n < data.Length
    }

    lemma NothingFits()
      requires Valid()
      ensures |Text()| < data.Length
    {
    }

    // XJSON_InitWriter with no buffer of the caller's.
    constructor (nSize: nat, nTabSize: nat)
      requires nSize > 0
      ensures Valid() && fresh(data) && Text() == "" && nIndents == 0
      ensures this.nTabSize == nTabSize && nAlloc
    {
      data := new char[nSize];
      this.nSize, nAvail, nLength, nIndents := nSize, nSize, 0, 0;
      this.nTabSize, nAlloc := nTabSize, true;
      new;
      data[0] := '\0';
    }

    // XJSON_InitWriter on a buffer of the caller's, which never grows.
    constructor OnBuffer(output: array<char>, nTabSize: nat)
      requires output.Length > 0
      modifies output
      ensures Valid() && data == output && Text() == "" && nIndents == 0
      ensures this.nTabSize == nTabSize && !nAlloc
    {
      data := output;
      nSize, nAvail, nLength, nIndents := output.Length, output.Length, 0, 0;
      this.nTabSize, nAlloc := nTabSize, false;
      new;
      data[0] := '\0';
    }

    // XJSON_Realloc: room for n bytes and the terminator, or failure.
    method Realloc(n: nat) returns (ok: bool)
      requires Valid()
      modifies this`data, this`nSize, this`nAvail
      ensures Valid() && Text() == old(Text())
      ensures data == old(data) || (nAlloc && fresh(data))
      ensures ok == old(Fits(n))
      ensures ok ==> n < nAvail
    {
      if n < nAvail { return true; }
      if !nAlloc { return false; }
      var newSize := nSize + n;
      var newData := new char[newSize];
      for i := 0 to nSize
        invariant Valid() && unchanged(this) && unchanged(data)
        invariant newData[..i] == data[..i]
      {
        newData[i] := data[i];
      }
      assert newData[..nSize] == data[..nSize];
      assert newData[nLength] == newData[..nSize][nLength];
      assert newData[..nLength] == newData[..nSize][..nLength] == data[..nSize][..nLength] == data[..nLength];
      nAvail := nAvail + n;
      nSize := newSize;
      data := newData;
      return true;
    }

    // Copying a C string to the end of the text, and terminating it.
    method Append(s: string)
      requires Valid() && |s| < nAvail
      modifies this`nLength, this`nAvail, data
      ensures Valid() && Text() == old(Text()) + s
    {
      ghost var before := Text();
      for i := 0 to |s|
        invariant unchanged(this) && data.Length == nSize && nLength + nAvail == nSize
        invariant data[..nLength + i] == before + s[..i]
      {
        data[nLength + i] := s[i];
      }
      assert s[..|s|] == s;
      nLength := nLength + |s|;
      nAvail := nAvail - |s|;
      data[nLength] := '\0';
    }

    ghost function Indentation(): (s: string)
      reads this
    {
      if nTabSize == 0 then "" else Spaces(nIndents)
    }

    method AppendSpaces() returns (ok: bool)
      requires Valid()
      modifies this, data
      ensures Valid() && (data == old(data) || (nAlloc && fresh(data))) && nIndents == old(nIndents)
      ensures ok ==> Text() == old(Text()) + Indentation()
      ensures ok ==> |Text()| == |old(Text())| + if nTabSize == 0 then 0 else nIndents
      ensures ok ==> forall i | |old(Text())| <= i < |Text()| :: Text()[i] == ' '
      ensures ok <==> old(Fits(|Indentation()|))
    {
      if nTabSize == 0 { return true; }
      var spaces := new char[nIndents + 1];
      for n := 0 to nIndents
        invariant unchanged(this) && unchanged(data)
        invariant forall k | 0 <= k < n :: spaces[k] == ' '
      {
        spaces[n] := ' ';
      }
      spaces[nIndents] := '\0';
      assert spaces[..nIndents] == Spaces(nIndents);
      ok := Realloc(nIndents);
      if !ok { return; }
      Append(spaces[..nIndents]);
    }

    method WriteString(nIndent: bool, s: string) returns (ok: bool)
      requires Valid()
      modifies this, data
      ensures Valid() && (data == old(data) || (nAlloc && fresh(data))) && nIndents == old(nIndents)
      ensures ok ==> Text() == old(Text()) + (if nIndent then Indentation() else "") + s
      ensures s != "" ==> (ok <==> old(Fits((if nIndent then |Indentation()| else 0) + |s|)))
    {
      ok := true;
      if nIndent {
        ok := AppendSpaces();
        if !ok { return; }
      }
      if s == "" { return false; }
      ok := Realloc(|s|);
      if !ok { return; }
      Append(s);
    }

    function Gap(): string { if nTabSize > 0 then " " else "" }
    function NewLine(): string { if nTabSize > 0 then "\n" else "" }

    // The text before a value: indentation and, for a member, its name.
    ghost function NamePart(name: Option<string>): string {
      if name.None? then "" else "\"" + Escape(CString(name.value)) + "\":" + Gap()
    }

    ghost function Wrote(before: string, name: Option<string>, s: string): string
      reads this
    {
      before + Indentation() + NamePart(name) + s
    }

    method WriteName(name: Option<string>) returns (ok: bool)
      requires Valid()
      modifies this, data
      ensures Valid() && (data == old(data) || (nAlloc && fresh(data))) && nIndents == old(nIndents)
      ensures ok ==> Text() == if name.None? then old(Text()) else old(Text()) + Indentation() + NamePart(name)
      ensures ok <==> old(Fits(if name.None? then 0 else |Indentation()| + |NamePart(name)|))
    {
      hide Escape, CString, Valid, Text;
      NothingFits();
      if name.None? { return true; }
      var escaped := EscapeString(name.value);
      var body := escaped[..escaped.Length - 1];
      ok := WriteString(true, "\"" + body + "\":" + Gap());
    }

    // A value's own text after WriteName: indented here when it has no name.
    method WriteAfterName(name: Option<string>, s: string, ghost before: string) returns (ok: bool)
      requires Valid() && Text() == if name.None? then before else before + Indentation() + NamePart(name)
      modifies this, data
      ensures Valid() && (data == old(data) || (nAlloc && fresh(data))) && nIndents == old(nIndents)
      ensures ok ==> Text() == Wrote(before, name, s)
      ensures s != "" ==> (ok <==> old(Fits((if name.None? then |Indentation()| else 0) + |s|)))
    {
      hide Escape, CString, Valid, Text;
      ok := WriteString(name.None?, s);
      if name.None? {
        assert before + Indentation() + "" + s == before + Indentation() + s;
      } else {
        assert old(Text()) + "" + s == old(Text()) + s;
      }
    }

    // XJSON_Ident.
    method Ident(increase: bool) returns (ok: bool)
      modifies this`nIndents
      ensures ok == (nTabSize == 0 || increase || nTabSize <= old(nIndents))
      ensures ok ==> nIndents == if increase then old(nIndents) + nTabSize else old(nIndents) - nTabSize
      ensures !ok ==> nIndents == old(nIndents)
    {
      if nTabSize > 0 {
        if increase { nIndents := nIndents + nTabSize; }
        else if nTabSize <= nIndents { nIndents := nIndents - nTabSize; }
        else { return false; }
      }
      return true;
    }

    // The name is a C string that the lexer would accept as it stands.
    ghost predicate GoodName(name: Option<string>) {
      name.Some? ==> ValidBody(name.value)
    }

    // The length of a value as WriteObject writes it, with what comes before it.
    ghost function Need(j: Json, name: Option<string>): nat
      reads this
    {
      |Indentation()| + |NamePart(name)| + JsonSize.Size(j, nTabSize, nIndents)
    }

    // `c` is a syntax tree of `j` that has just been printed after `before`.
    ghost predicate Printed(j: Json, name: Option<string>, c: Cst, before: string)
      requires Valid()
      reads this, data
    {
      JsonGrammar.Valid(c) && Distinct(c) && Tree(c) == j && Shaped(c, nTabSize, nIndents) &&
      Text() == Wrote(before, name, Print(c)) && |Text()| == |before| + Need(j, name)
    }

    method WriteItem(kind: Kind, text: string, name: Option<string>) returns (ok: bool, ghost c: Cst)
      requires Valid()
      modifies this, data
      ensures Valid() && (data == old(data) || (nAlloc && fresh(data))) && nIndents == old(nIndents)
      ensures WellFormed(Atom(kind, text)) ==> (ok <==> old(Fits(Need(Atom(kind, text), name))))
      ensures WellFormed(Atom(kind, text)) && ok ==> Printed(Atom(kind, text), name, c, old(Text()))
    {
      c := AtomOf(kind, text);
      hide WellFormed, Escape, CString, ValidBody, Print, JsonGrammar.Valid, Tree, AtomOf, Valid, Text;
      ghost var before := Text();
      ok := WriteName(name);
      if !ok { return; }
      var own := CString(text);
      if kind == Kind.Text {
        var escaped := EscapeString(text);
        var body := escaped[..escaped.Length - 1];
        own := "\"" + body + "\"";
      }
      if WellFormed(Atom(kind, text)) { AtomPrints(kind, text, nTabSize, nIndents); }
      ok := WriteAfterName(name, own, before);
    }

    // The comma and the line break after a value.
    method Separate(more: bool) returns (ok: bool)
      requires Valid()
      modifies this, data
      ensures Valid() && (data == old(data) || (nAlloc && fresh(data))) && nIndents == old(nIndents)
      ensures ok ==> Text() == old(Text()) + (if more then "," else "") + NewLine()
      ensures ok <==> old(Fits((if more then 1 else 0) + |NewLine()|))
    {
      hide Valid, Text;
      NothingFits();
      ok := true;
      if more {
        ok := WriteString(false, ",");
        if !ok { return; }
      }
      if nTabSize > 0 { ok := WriteString(false, "\n"); }
    }

    // XJSON_MapIt, and the body of the loop of WriteArray: a value, then a comma when there is
    // `more` to come, then the line break.
    method WriteOne(child: Json, name: Option<string>, more: bool, ghost head: string, ghost parts: seq<Part>)
      returns (ok: bool, ghost p: Part)
      requires Valid()
      modifies this, data
      ensures Valid() && (data == old(data) || (nAlloc && fresh(data))) && (ok ==> nIndents == old(nIndents))
      ensures var need := old(Need(child, name)) + (if more then 1 else 0) + |NewLine()|;
        WellFormed(child) ==> (ok <==> old(Fits(need))) && (ok ==> |Text()| == |old(Text())| + need)
      ensures p.post == "" && p.name == name.GetOr("")
      ensures ok && WellFormed(child) && GoodName(name) ==> ValidPart(p, nTabSize, nIndents) && Tree(p.value) == child
      ensures ok && WellFormed(child) && GoodName(name) && old(Text()) == SoFar(head, parts, name.Some?, true, NewLine()) ==>
                Text() == SoFar(head, parts + [p], name.Some?, more, NewLine())
      decreases child, 3
    {
      hide WellFormed, Print, JsonGrammar.Valid, Tree, Distinct, ValidBody, SoFar, ValidPart, NamePart, Valid, Text, Shaped;
      ghost var c;
      ok, c := WriteObject(child, name);
      p := Part(NewLine() + Indentation(), name.GetOr(""), Gap(), c, "");
      if !ok { return; }
      ok := Separate(more);
      if !ok { return; }
      if GoodName(name) {
        OneStep(name, more, head, parts, p);
        Break();
        if WellFormed(child) { PartOf(name.GetOr(""), NewLine(), Indentation(), Gap(), c, nTabSize, nIndents); }
      }
    }

    // The text after one more part.
    lemma OneStep(name: Option<string>, more: bool, head: string, parts: seq<Part>, p: Part)
      requires GoodName(name) && p == Part(NewLine() + Indentation(), name.GetOr(""), Gap(), p.value, "")
      ensures Wrote(SoFar(head, parts, name.Some?, true, NewLine()), name, Print(p.value)) + (if more then "," else "") + NewLine() ==
              SoFar(head, parts + [p], name.Some?, more, NewLine())
    {
      hide Print, ValidBody, SoFar, NamePart;
      GoodNamePart(name);
      SoFarStep(head, parts, p, name.Some?, more, NewLine(), Indentation());
    }

    // A line break, an indent and a gap, in characters.
    lemma Break()
      ensures IsBreak(NewLine() + Indentation(), nTabSize, nIndents) && IsGap(Gap(), nTabSize)
    {
    }

    lemma GoodNamePart(name: Option<string>)
      requires GoodName(name)
      ensures NamePart(name) == if name.None? then "" else "\"" + name.value + "\":" + Gap()
    {
      if name.Some? {
        BodyNulFree(name.value);
        EscapeIdentity(name.value);
      }
    }

    lemma MemberNeed(j: Json, left: set<string>, k: string)
      requires j.Object? && left <= j.members.Keys && k in left && ValidBody(k)
      ensures JsonSize.MembersSize(j, left, nTabSize, nIndents) ==
              Need(j.members[k], Some(k)) + 1 + |NewLine()| + JsonSize.MembersSize(j, left - {k}, nTabSize, nIndents)
      ensures left == {k} <==> JsonSize.MembersSize(j, left - {k}, nTabSize, nIndents) == 0
    {
      hide JsonSize.Size, JsonSize.MembersSize, NamePart, Escape, CString, ValidBody;
      GoodNamePart(Some(k));
      JsonSize.MembersStep(j, left, k, nTabSize, nIndents);
    }

    lemma ItemNeed(j: Json, i: nat)
      requires j.Array? && i < |j.items|
      ensures JsonSize.ItemsSize(j, i, nTabSize, nIndents) ==
              Need(j.items[i], None) + 1 + |NewLine()| + JsonSize.ItemsSize(j, i + 1, nTabSize, nIndents)
      ensures i + 1 == |j.items| <==> JsonSize.ItemsSize(j, i + 1, nTabSize, nIndents) == 0
    {
      hide JsonSize.Size, JsonSize.ItemsSize;
      JsonSize.ItemsStep(j, i, nTabSize, nIndents);
    }

    // The loop of WriteArray.
    method WriteElements(j: Json, ghost head: string) returns (ok: bool, ghost parts: seq<Part>)
      requires Valid() && j.Array? && j.items != [] && Text() == head + NewLine()
      modifies this, data
      ensures Valid() && (data == old(data) || (nAlloc && fresh(data))) && (ok ==> nIndents == old(nIndents))
      ensures var need := JsonSize.ItemsSize(j, 0, nTabSize, old(nIndents)) - 1;
        WellFormed(j) ==> (ok <==> old(Fits(need))) && (ok ==> |Text()| == |old(Text())| + need)
      ensures WellFormed(j) && ok ==>
                AllParts(parts, nTabSize, nIndents) && Trees(parts) == j.items && Text() == SoFar(head, parts, false, false, NewLine())
      ensures parts != [] ==> parts[|parts| - 1].post == ""
      decreases j, 0
    {
      hide WellFormed, ValidPart, Tree, Joined, SoFar, JsonSize.Size, JsonSize.ItemsSize, JsonSize.MembersSize, Valid, Text, Need, Indentation, NewLine, NamePart, AllParts, Trees;
      NothingFits();
      parts := [];
      ok := true;
      NoParts(nTabSize, nIndents);
      ghost var wf := WellFormed(j);
      var used := |j.items|;
      SoFarEmpty(head, false, true, NewLine());
      SoFarEmpty(head, false, false, NewLine());
      for i := 0 to used
        invariant Valid() && (data == old(data) || (nAlloc && fresh(data))) && nIndents == old(nIndents)
        invariant |parts| == i
        invariant wf ==> AllParts(parts, nTabSize, nIndents) && Trees(parts) == j.items[..i]
        invariant wf ==> Text() == SoFar(head, parts, false, i < used, NewLine())
        invariant wf ==> |Text()| == |old(Text())| + JsonSize.ItemsSize(j, 0, nTabSize, nIndents) -
                                     (if i < used then JsonSize.ItemsSize(j, i, nTabSize, nIndents) else 1)
        invariant parts != [] ==> parts[|parts| - 1].post == ""
      {
        ItemWellFormed(j, i);
        ItemNeed(j, i);
        ghost var p;
        ok, p := WriteOne(j.items[i], None, i + 1 < used, head, parts);
        if !ok { return; }
        OneMorePart(parts, p, nTabSize, nIndents);
        OneMoreTree(parts, p);
        parts := parts + [p];
      }
      NothingFits();
    }

    // XMap_Iterate with XJSON_MapIt: the members in the order of the table, whatever it is.
    method WriteMembers(j: Json, ghost head: string) returns (ok: bool, ghost parts: seq<Part>)
      requires Valid() && j.Object? && j.members != map[] && Text() == head + NewLine()
      modifies this, data
      ensures Valid() && (data == old(data) || (nAlloc && fresh(data))) && (ok ==> nIndents == old(nIndents))
      ensures var need := JsonSize.MembersSize(j, j.members.Keys, nTabSize, old(nIndents)) - 1;
        WellFormed(j) ==> (ok <==> old(Fits(need))) && (ok ==> |Text()| == |old(Text())| + need)
      ensures WellFormed(j) && ok ==>
                AllParts(parts, nTabSize, nIndents) && Covers(parts, j.members) && Text() == SoFar(head, parts, true, false, NewLine())
      ensures parts != [] ==> parts[|parts| - 1].post == ""
      decreases j, 0
    {
      hide WellFormed, ValidPart, Tree, Joined, SoFar, JsonSize.Size, JsonSize.ItemsSize, JsonSize.MembersSize, Valid, Text, Covered, Covers, NamePart, Need, Indentation, NewLine, Escape, CString, AllParts;
      NothingFits();
      parts := [];
      ok := true;
      NoParts(nTabSize, nIndents);
      ghost var wf := WellFormed(j);
      var left := j.members.Keys;
      CoveredNone(j.members);
      SoFarEmpty(head, true, true, NewLine());
      SoFarEmpty(head, true, false, NewLine());
      while left != {}
        invariant Valid() && (data == old(data) || (nAlloc && fresh(data))) && nIndents == old(nIndents)
        invariant left <= j.members.Keys
        invariant wf ==> AllParts(parts, nTabSize, nIndents) && Covered(parts, j.members, left)
        invariant wf ==> Text() == SoFar(head, parts, true, left != {}, NewLine())
        invariant wf ==> |Text()| == |old(Text())| + JsonSize.MembersSize(j, j.members.Keys, nTabSize, nIndents) -
                                     (if left != {} then JsonSize.MembersSize(j, left, nTabSize, nIndents) else 1)
        invariant parts != [] ==> parts[|parts| - 1].post == ""
      {
        var k :| k in left;
        MemberWellFormed(j, k);
        if wf { MemberNeed(j, left, k); }
        ghost var p;
        ok, p := WriteOne(j.members[k], Some(k), left != {k}, head, parts);
        if !ok { return; }
        OneMorePart(parts, p, nTabSize, nIndents);
        if wf { CoveredStep(parts, p, j.members, left); }
        parts := parts + [p];
        left := left - {k};
      }
      CoveredAll(parts, j.members);
      NothingFits();
    }

    // What WriteArray and WriteHashmap do around their loops.
    method OpenContainer(open: string, empty: bool, name: Option<string>) returns (ok: bool)
      requires Valid() && |open| == 1
      modifies this, data
      ensures Valid() && (data == old(data) || (nAlloc && fresh(data)))
      ensures ok ==> Text() == old(Wrote(Text(), name, open)) + (if empty then "" else NewLine())
      ensures ok ==> nIndents == old(nIndents) + if empty then 0 else nTabSize
      ensures ok <==> old(Fits(|Indentation()| + |NamePart(name)| + 1 + if empty then 0 else |NewLine()|))
    {
      hide Valid, Text;
      NothingFits();
      ghost var before := Text();
      ok := WriteName(name);
      if !ok { return; }
      ok := WriteAfterName(name, open, before);
      if !ok { return; }
      if nTabSize > 0 && !empty {
        ok := WriteString(false, "\n");
        if !ok { return; }
        ok := Ident(true);
      }
    }

    method CloseContainer(close: string, empty: bool) returns (ok: bool)
      requires Valid() && |close| == 1 && (empty || nTabSize <= nIndents)
      modifies this, data
      ensures Valid() && (data == old(data) || (nAlloc && fresh(data)))
      ensures nIndents == old(nIndents) - if empty then 0 else nTabSize
      ensures ok ==> Text() == old(Text()) + (if empty then "" else Indentation()) + close
      ensures ok <==> nAlloc || |old(Text())| + (if empty then 0 else |Indentation()|) + 1 < old(data.Length)
    {
      hide Valid, Text;
      var nIndent := nTabSize > 0 && !empty;
      if nIndent {
        ok := Ident(false);
        if !ok { return; }
      }
      ok := WriteString(nIndent, close);
    }

    // The length of an array or object, by what its loop writes with the indent further in.
    lemma ContainerNeed(j: Json, name: Option<string>)
      requires !j.Atom?
      ensures var head, inner := |Indentation()| + |NamePart(name)|, nIndents + nTabSize;
        Need(j, name) == head +
          match j
          case Array(items) =>
            if items == [] then 2 else 1 + |NewLine()| + JsonSize.ItemsSize(j, 0, nTabSize, inner) + |Indentation()|
          case Object(members) =>
            if members == map[] then 2 else 1 + |NewLine()| + JsonSize.MembersSize(j, members.Keys, nTabSize, inner) + |Indentation()|
    {
      hide NamePart, JsonSize.ItemsSize, JsonSize.MembersSize;
    }

    // What an array or object is, once its closing bracket is written.
    lemma ArrayDone(j: Json, name: Option<string>, parts: seq<Part>, before: string, head: string) returns (c: Cst)
      requires Valid() && j.Array? && head == Wrote(before, name, "[")
      requires j.items != [] ==> AllParts(parts, nTabSize, nIndents + nTabSize) && Trees(parts) == j.items && (parts != [] ==> parts[|parts| - 1].post == "")
      requires Text() == if j.items == [] then head + "]" else SoFar(head, parts, false, false, NewLine()) + Indentation() + "]"
      requires |Text()| == |before| + Need(j, name)
      ensures Printed(j, name, c, before)
    {
      hide JsonGrammar.Valid, Distinct, Tree, Print, AllParts, Trees, SoFar, NamePart, Need, Valid;
      if j.items != [] { TreesLength(parts); }
      var lead := before + Indentation() + NamePart(name);
      Break();
      c := ArrayPrinted(j, parts, NewLine(), Indentation(), lead, nTabSize, nIndents);
      Assoc(lead, "[", "]");
    }

    lemma ObjectDone(j: Json, name: Option<string>, parts: seq<Part>, before: string, head: string) returns (c: Cst)
      requires Valid() && j.Object? && head == Wrote(before, name, "{")
      requires j.members != map[] ==> AllParts(parts, nTabSize, nIndents + nTabSize) && Covers(parts, j.members) && (parts != [] ==> parts[|parts| - 1].post == "")
      requires Text() == if j.members == map[] then head + "}" else SoFar(head, parts, true, false, NewLine()) + Indentation() + "}"
      requires |Text()| == |before| + Need(j, name)
      ensures Printed(j, name, c, before)
    {
      hide JsonGrammar.Valid, Distinct, Tree, Print, AllParts, Covers, SoFar, NamePart, Need, Valid;
      var lead := before + Indentation() + NamePart(name);
      Break();
      c := ObjectPrinted(j, parts, NewLine(), Indentation(), lead, nTabSize, nIndents);
      Assoc(lead, "{", "}");
    }

    method WriteArray(j: Json, name: Option<string>) returns (ok: bool, ghost c: Cst)
      requires Valid() && j.Array?
      modifies this, data
      ensures Valid() && (data == old(data) || (nAlloc && fresh(data))) && (ok ==> nIndents == old(nIndents))
      ensures WellFormed(j) ==> (ok <==> old(Fits(Need(j, name))))
      ensures WellFormed(j) && ok ==> Printed(j, name, c, old(Text()))
      decreases j, 1
    {
      hide WellFormed, SoFar, AllParts, Trees, NamePart, Valid, Text, Need, Printed, JsonSize.ItemsSize, Escape, CString;
      ghost var before, head := Text(), Wrote(Text(), name, "[");
      ContainerNeed(j, name);
      c := EmptyArr("");
      ghost var parts: seq<Part> := [];
      var empty := j.items == [];
      ok := OpenContainer("[", empty, name);
      if !ok { return; }
      if !empty {
        ok, parts := WriteElements(j, head);
        if !ok { return; }
      }
      ok := CloseContainer("]", empty);
      if ok && WellFormed(j) {
        ContainerNeed(j, name);
        c := ArrayDone(j, name, parts, before, head);
      }
    }

    method WriteHashmap(j: Json, name: Option<string>) returns (ok: bool, ghost c: Cst)
      requires Valid() && j.Object?
      modifies this, data
      ensures Valid() && (data == old(data) || (nAlloc && fresh(data))) && (ok ==> nIndents == old(nIndents))
      ensures WellFormed(j) ==> (ok <==> old(Fits(Need(j, name))))
      ensures WellFormed(j) && ok ==> Printed(j, name, c, old(Text()))
      decreases j, 1
    {
      hide WellFormed, SoFar, AllParts, Covers, NamePart, Valid, Text, Need, Printed, JsonSize.MembersSize, Escape, CString;
      ghost var before, head := Text(), Wrote(Text(), name, "{");
      ContainerNeed(j, name);
      c := EmptyObj("");
      ghost var parts: seq<Part> := [];
      var empty := j.members == map[];
      ok := OpenContainer("{", empty, name);
      if !ok { return; }
      if !empty {
        ok, parts := WriteMembers(j, head);
        if !ok { return; }
      }
      ok := CloseContainer("}", empty);
      if ok && WellFormed(j) {
        ContainerNeed(j, name);
        c := ObjectDone(j, name, parts, before, head);
      }
    }

    method WriteObject(j: Json, name: Option<string>) returns (ok: bool, ghost c: Cst)
      requires Valid()
      modifies this, data
      ensures Valid() && (data == old(data) || (nAlloc && fresh(data))) && (ok ==> nIndents == old(nIndents))
      ensures WellFormed(j) ==> (ok <==> old(Fits(Need(j, name))))
      ensures WellFormed(j) && ok ==> Printed(j, name, c, old(Text()))
      decreases j, 2
    {
      match j {
        case Array(_) => ok, c := WriteArray(j, name);
        case Object(_) => ok, c := WriteHashmap(j, name);
        case Atom(kind, text) => ok, c := WriteItem(kind, text, name);
      }
    }
  }

  lemma ItemWellFormed(j: Json, i: nat)
    requires j.Array? && i < |j.items|
    ensures WellFormed(j) ==> WellFormed(j.items[i])
  {
  }

  lemma MemberWellFormed(j: Json, k: string)
    requires j.Object? && k in j.members
    ensures WellFormed(j) ==> WellFormed(j.members[k]) && ValidBody(k)
  {
  }

  // Covers, for the members no longer `left`.
  ghost predicate Covered(parts: seq<Part>, m: map<string, Json>, left: set<string>) {
    DistinctNames(parts) &&
    (forall i | 0 <= i < |parts| :: parts[i].name in m && parts[i].name !in left && Tree(parts[i].value) == m[parts[i].name]) &&
    (forall k | k in m && k !in left :: exists i | 0 <= i < |parts| :: parts[i].name == k)
  }

  lemma CoveredNone(m: map<string, Json>)
    ensures Covered([], m, m.Keys)
  {
  }

  lemma CoveredAll(parts: seq<Part>, m: map<string, Json>)
    ensures Covered(parts, m, {}) ==> Covers(parts, m)
  {
    hide Tree;
  }

  lemma CoveredStep(parts: seq<Part>, p: Part, m: map<string, Json>, left: set<string>)
    requires Covered(parts, m, left) && p.name in left && p.name in m && Tree(p.value) == m[p.name]
    ensures Covered(parts + [p], m, left - {p.name})
  {
    hide Tree;
    var all := parts + [p];
    forall k | k in m && k !in left - {p.name} ensures exists i | 0 <= i < |all| :: all[i].name == k {
      if k == p.name {
        assert all[|parts|].name == k;
      } else {
        var i :| 0 <= i < |parts| && parts[i].name == k;
        assert all[i].name == k;
      }
    }
  }

  // The syntax tree of a printed array, and its text after `before`.
  lemma ArrayPrinted(j: Json, parts: seq<Part>, newLine: string, ind: string, before: string, tab: nat, n: nat) returns (c: Cst)
    requires j.Array? && AllWs(newLine) && AllWs(ind) && IsBreak(newLine + ind, tab, n)
    requires j.items != [] ==> AllParts(parts, tab, n + tab) && Trees(parts) == j.items && parts[|parts| - 1].post == ""
    ensures Valid(c) && Distinct(c) && Tree(c) == j && Shaped(c, tab, n)
    ensures before + Print(c) == if j.items == [] then before + "[" + "]"
                                 else SoFar(before + "[", parts, false, false, newLine) + ind + "]"
  {
    hide AllParts, Trees, SoFar, Print, Valid, Distinct, Tree, IsBreak;
    if j.items == [] {
      c := EmptyArr("");
      EmptyArrPrinted();
      Assoc(before, "[", "]");
    } else {
      TreesLength(parts);
      c := ElemsPrinted(parts, newLine, ind, before, tab, n);
    }
  }

  lemma EmptyArrPrinted()
    ensures var c := EmptyArr(""); Valid(c) && Distinct(c) && Tree(c) == Array([]) && Print(c) == "[" + "]"
  {
  }

  lemma ElemsPrinted(parts: seq<Part>, newLine: string, ind: string, before: string, tab: nat, n: nat) returns (c: Cst)
    requires AllWs(newLine) && AllWs(ind) && IsBreak(newLine + ind, tab, n)
    requires parts != [] && AllParts(parts, tab, n + tab) && parts[|parts| - 1].post == ""
    ensures Valid(c) && Distinct(c) && Tree(c) == Array(Trees(parts)) && Shaped(c, tab, n)
    ensures before + Print(c) == SoFar(before + "[", parts, false, false, newLine) + ind + "]"
  {
    hide Joined, SoFar, PrintElems, ElemsOf, ValidElems, DistinctElems, TreeElems, AllParts, Trees, Closed, ShapedElems, IsBreak;
    var closed := Closed(parts, newLine + ind);
    ClosedText(before + "[", parts, false, newLine, ind);
    ClosedParts(parts, newLine + ind, tab, n + tab);
    ElemsOfValid(closed, tab, n + tab, n);
    JoinedElems(closed);
    var es := ElemsOf(closed);
    c := Arr(es);
    Flatten(before, "[", PrintElems(es), "]", "");
    assert Print(c) == "[" + PrintElems(es) + "]" + "";
  }

  lemma TreesLength(parts: seq<Part>)
    ensures |Trees(parts)| == |parts|
  {
  }

  lemma ClosedParts(parts: seq<Part>, post: string, tab: nat, n: nat)
    requires parts != [] && AllParts(parts, tab, n) && AllWs(post)
    ensures var closed := Closed(parts, post);
      closed != [] && AllParts(closed, tab, n) && Trees(closed) == Trees(parts) && closed[|closed| - 1].post == post
    ensures forall i | 0 <= i < |parts| :: Closed(parts, post)[i].name == parts[i].name && Closed(parts, post)[i].value == parts[i].value
  {
  }

  lemma ObjectPrinted(j: Json, parts: seq<Part>, newLine: string, ind: string, before: string, tab: nat, n: nat) returns (c: Cst)
    requires j.Object? && AllWs(newLine) && AllWs(ind) && IsBreak(newLine + ind, tab, n)
    requires j.members != map[] ==> AllParts(parts, tab, n + tab) && Covers(parts, j.members) && (parts != [] ==> parts[|parts| - 1].post == "")
    ensures Valid(c) && Distinct(c) && Tree(c) == j && Shaped(c, tab, n)
    ensures before + Print(c) == if j.members == map[] then before + "{" + "}"
                                 else SoFar(before + "{", parts, true, false, newLine) + ind + "}"
  {
    hide AllParts, Covers, SoFar, Print, Valid, Distinct, Tree, IsBreak;
    if j.members == map[] {
      c := EmptyObj("");
      EmptyObjPrinted();
      Assoc(before, "{", "}");
    } else {
      NonEmptyCover(parts, j.members);
      c := MembersPrinted(j.members, parts, newLine, ind, before, tab, n);
    }
  }

  lemma EmptyObjPrinted()
    ensures var c := EmptyObj(""); Valid(c) && Distinct(c) && Tree(c) == Object(map[]) && Print(c) == "{" + "}"
  {
  }

  lemma MembersPrinted(m: map<string, Json>, parts: seq<Part>, newLine: string, ind: string, before: string, tab: nat, n: nat) returns (c: Cst)
    requires AllWs(newLine) && AllWs(ind) && IsBreak(newLine + ind, tab, n)
    requires parts != [] && AllParts(parts, tab, n + tab) && Covers(parts, m) && parts[|parts| - 1].post == ""
    ensures Valid(c) && Distinct(c) && Tree(c) == Object(m) && Shaped(c, tab, n)
    ensures before + Print(c) == SoFar(before + "{", parts, true, false, newLine) + ind + "}"
  {
    hide Joined, SoFar, PrintMembers, MembersOf, ValidMembers, DistinctMembers, TreeMembers, Tree, AllParts, Closed, Covers, ShapedMembers, IsBreak;
    var closed := Closed(parts, newLine + ind);
    ClosedText(before + "{", parts, true, newLine, ind);
    ClosedParts(parts, newLine + ind, tab, n + tab);
    ClosedCovers(parts, newLine + ind, m);
    MembersOfTree(closed, m, tab, n + tab, n);
    JoinedMembers(closed);
    var ms := MembersOf(closed);
    c := Obj(ms);
    JsonTheorems.ObjTree(ms);
    Flatten(before, "{", PrintMembers(ms), "}", "");
    assert Print(c) == "{" + PrintMembers(ms) + "}" + "";
  }

  lemma NonEmptyCover(parts: seq<Part>, m: map<string, Json>)
    requires m != map[] && Covers(parts, m)
    ensures parts != []
  {
    var k :| k in m;
  }

  lemma ClosedCovers(parts: seq<Part>, post: string, m: map<string, Json>)
    requires parts != [] && Covers(parts, m)
    ensures Covers(Closed(parts, post), m)
  {
    hide Tree;
    var closed := Closed(parts, post);
    assert forall i | 0 <= i < |parts| :: closed[i].name == parts[i].name && closed[i].value == parts[i].value;
    forall k | k in m ensures exists i | 0 <= i < |closed| :: closed[i].name == k {
      var i :| 0 <= i < |parts| && parts[i].name == k;
      assert closed[i].name == k;
    }
  }

  // XJSON_DumpObj: the text of a tree, in a buffer that starts at one byte.
  // Parsing it gives the tree back, in whatever order its members were visited.
  method DumpObj(j: Json, nTabSize: nat) returns (text: Option<string>)
    ensures WellFormed(j) ==> text.Some? && |text.value| == JsonSize.Size(j, nTabSize, 0)
    ensures WellFormed(j) && !j.Atom? ==> Parse(text.value).1 == Some(j) && Parse(text.value).0.offset == |text.value|
    ensures WellFormed(j) ==> LaidOut(text.value, false, 0, nTabSize)
  {
    hide WellFormed, Parse, Print, Valid, Distinct, Tree, JsonSize.Size, LaidOut, Shaped;
    var writer := new Writer(1, nTabSize);
    var ok;
    ghost var c;
    ok, c := writer.WriteObject(j, None);
    if !ok { return None; }
    text := Some(writer.data[..writer.nLength]);
    if WellFormed(j) {
      assert text.value == Print(c);
      ShapedIsLaidOut(c, nTabSize);
    }
    if WellFormed(j) && !j.Atom? { PrintedParses(text.value, j, c); }
  }

  // XJSON_InitWriter and XJSON_WriteObject on a buffer of the caller's: the text with its terminator,
  // exactly when the two fit.
  method WriteInto(j: Json, nTabSize: nat, output: array<char>) returns (ok: bool, length: nat)
    modifies output
    ensures WellFormed(j) ==> (ok <==> JsonSize.Size(j, nTabSize, 0) < output.Length)
    ensures WellFormed(j) && ok ==> length == JsonSize.Size(j, nTabSize, 0) && output[length] == '\0'
    ensures WellFormed(j) && ok && !j.Atom? ==> Parse(output[..length]).1 == Some(j)
    ensures WellFormed(j) && ok ==> LaidOut(output[..length], false, 0, nTabSize)
  {
    hide WellFormed, Parse, Print, Valid, Distinct, Tree, JsonSize.Size, LaidOut, Shaped;
    if output.Length == 0 { return false, 0; }
    var writer := new Writer.OnBuffer(output, nTabSize);
    ghost var c;
    ok, c := writer.WriteObject(j, None);
    length := writer.nLength;
    if WellFormed(j) && ok {
      assert output[..length] == Print(c);
      ShapedIsLaidOut(c, nTabSize);
    }
    if WellFormed(j) && ok && !j.Atom? { PrintedParses(output[..length], j, c); }
  }

  lemma PrintedParses(text: string, j: Json, c: Cst)
    requires Valid(c) && Distinct(c) && Tree(c) == j && !j.Atom? && text == Print(c)
    ensures Parse(text).1 == Some(j) && Parse(text).0.offset == |text|
  {
    hide Parse, Print, Valid, Distinct, Tree;
    assert text == "" + Print(c) + "";
    ContainerTree(c);
    ParseComplete(text, "", c, "");
  }

  lemma ContainerTree(c: Cst)
    requires !Tree(c).Atom?
    ensures IsContainer(c)
  {
  }

  // XJSON_Write: the text without tabs, exactly when it fits the caller's buffer with its terminator.
  method Write(j: Json, nSize: nat) returns (text: Option<string>)
    ensures text.Some? ==> |text.value| < nSize
    ensures WellFormed(j) ==> (text.Some? <==> JsonSize.Size(j, 0, 0) < nSize)
    ensures WellFormed(j) && text.Some? ==> |text.value| == JsonSize.Size(j, 0, 0)
    ensures WellFormed(j) && !j.Atom? && text.Some? ==> Parse(text.value).1 == Some(j)
    ensures WellFormed(j) && text.Some? ==> LaidOut(text.value, false, 0, 0)
  {
    hide WellFormed, Parse, JsonSize.Size, LaidOut;
    if nSize == 0 { return None; }
    var all := DumpObj(j, 0);
    text := if all.Some? && |all.value| < nSize then all else None;
  }

  // The tree a parse returns is well-formed, so that the above applies to it, unless the text had a
  // NUL: a string with one, or a name cut at one, is not a string of section 7.
  lemma ParsedIsWellFormed(s: string)
    requires Parse(s).1.Some?
    ensures !Parse(s).1.value.Atom?
    ensures WellFormed(Parse(s).1.value) <==> NulFree(s)
  {
    hide Parse, WellFormed, Print, Valid, Distinct, Strict;
    var lead, c, trail := ParseSound(s);
    DerivedNulFree(s, lead, c, trail);
    if NulFree(s) { TreeWellFormed(c); }
    if WellFormed(Tree(c)) { WellFormedStrict(c); }
  }
}
