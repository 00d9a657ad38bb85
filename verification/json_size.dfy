/**
 The length of the text that the writer prints for a tree, by the tab size and the indent it
 starts at. It does not depend on the order in which the members of an object are visited.
 */
module JsonSize {
  import opened JsonGrammar

  // A line break or a gap after a name, and the spaces of an indent.
  function Line(tab: nat): nat { if tab > 0 then 1 else 0 }
  function Dent(tab: nat, indent: nat): nat { if tab == 0 then 0 else indent }

  // A value without the spaces and the name before it.
  ghost function Size(j: Json, tab: nat, indent: nat): nat
    decreases j, 1, 0
  {
    match j
    case Atom(kind, text) => if kind == Text then |text| + 2 else |text|
    case Array(items) =>
      if items == [] then 2 else 1 + Line(tab) + ItemsSize(j, 0, tab, indent + tab) + Dent(tab, indent)
    case Object(members) =>
      if members == map[] then 2 else 1 + Line(tab) + MembersSize(j, members.Keys, tab, indent + tab) + Dent(tab, indent)
  }

  // Each item from i on, with the comma or bracket after it.
  ghost function ItemsSize(j: Json, i: nat, tab: nat, indent: nat): (n: nat)
    requires j.Array? && i <= |j.items|
    ensures i < |j.items| ==> n > 0
    decreases j, 0, |j.items| - i
  {
    if i == |j.items| then 0
    else Dent(tab, indent) + Size(j.items[i], tab, indent) + 1 + Line(tab) + ItemsSize(j, i + 1, tab, indent)
  }

  lemma ItemsStep(j: Json, i: nat, tab: nat, indent: nat)
    requires j.Array? && i < |j.items|
    ensures ItemsSize(j, i, tab, indent) ==
            Dent(tab, indent) + Size(j.items[i], tab, indent) + 1 + Line(tab) + ItemsSize(j, i + 1, tab, indent)
    ensures i + 1 == |j.items| <==> ItemsSize(j, i + 1, tab, indent) == 0
  {
  }

  // Each of these members, with the comma or brace after it.
  ghost function MembersSize(j: Json, keys: set<string>, tab: nat, indent: nat): (n: nat)
    requires j.Object? && keys <= j.members.Keys
    ensures keys != {} ==> n > 0
    decreases j, 0, |keys|
  {
    if keys == {} then 0
    else var k :| k in keys; MemberSize(j, k, tab, indent) + MembersSize(j, keys - {k}, tab, indent)
  }

  // The quotes and the colon of the name are three.
  ghost function MemberSize(j: Json, k: string, tab: nat, indent: nat): (n: nat)
    requires j.Object? && k in j.members
    ensures n > 0
    decreases j, 0, 0
  {
    Dent(tab, indent) + |k| + 3 + Line(tab) + Size(j.members[k], tab, indent) + 1 + Line(tab)
  }

  lemma MembersStep(j: Json, keys: set<string>, k: string, tab: nat, indent: nat)
    requires j.Object? && keys <= j.members.Keys && k in keys
    ensures MembersSize(j, keys, tab, indent) ==
            Dent(tab, indent) + |k| + 3 + Line(tab) + Size(j.members[k], tab, indent) + 1 + Line(tab) + MembersSize(j, keys - {k}, tab, indent)
    ensures keys == {k} <==> MembersSize(j, keys - {k}, tab, indent) == 0
  {
    hide Size, Dent, Line;
    MembersInAnyOrder(j, keys, k, tab, indent);
    if keys - {k} == {} { assert keys == {k}; }
  }

  // Whichever member comes first.
  lemma {:induction false} MembersInAnyOrder(j: Json, keys: set<string>, k: string, tab: nat, indent: nat)
    requires j.Object? && keys <= j.members.Keys && k in keys
    ensures MembersSize(j, keys, tab, indent) == MemberSize(j, k, tab, indent) + MembersSize(j, keys - {k}, tab, indent)
    decreases |keys|
  {
    hide MemberSize;
    var first :| first in keys &&
      MembersSize(j, keys, tab, indent) == MemberSize(j, first, tab, indent) + MembersSize(j, keys - {first}, tab, indent);
    if first != k {
      MembersInAnyOrder(j, keys - {first}, k, tab, indent);
      MembersInAnyOrder(j, keys - {k}, first, tab, indent);
      assert keys - {first} - {k} == keys - {k} - {first};
    }
  }
}
