/** Dropdown maps: unique labels for a list of names, and the reverse lookup of a written value. */
module DropdownLabels {
  import opened Ascii
  import opened Decimal
  import opened Options

  // ----- unique labels -----

  /** The `n`-th form of a name: the name itself, then " (2)", " (3)" and so on. */
  function Form(name: string, n: nat): string {
    if n == 0 then name else name + " (" + Print(n + 1) + ")"
  }

  lemma SuffixDetermines(name: string, d: string, e: string)
    requires name + " (" + d + ")" == name + " (" + e + ")"
    ensures d == e
  {
    var s := name + " (" + d + ")";
    assert s[|name| + 2..|s| - 1] == d && s[|name| + 2..|s| - 1] == e;
  }

  lemma FormsDiffer(name: string, m: nat, n: nat)
    requires m < n
    ensures Form(name, m) != Form(name, n)
  {
    hide Print;
    if m > 0 && Form(name, m) == Form(name, n) {
      SuffixDetermines(name, Print(m + 1), Print(n + 1));
      PrintInjective(m + 1, n + 1);
    }
  }

  lemma AllFormsDiffer(name: string)
    ensures forall i: nat, j: nat | i < j :: Form(name, i) != Form(name, j)
  {
    hide Form;
    forall i: nat, j: nat | i < j ensures Form(name, i) != Form(name, j) { FormsDiffer(name, i, j); }
  }

  /** The first form from the `n`-th on that is no label yet. */
  function Free(name: string, n: nat, used: set<string>): (k: nat)
    ensures k >= n && Form(name, k) !in used
    ensures forall i: nat | n <= i < k :: Form(name, i) in used
  {
    AllFormsDiffer(name);
    var form := (i: nat) => Form(name, i);
    var k := FirstFree(n, form, used);
    assert forall i: nat | n <= i < k :: form(i) == Form(name, i);
    k
  }

  /** The counter of each name, and the labels given so far. */
  datatype Naming = Naming(counts: map<string, nat>, labels: seq<string>) {
    function Used(): set<string> {
      set l | l in labels
    }

    function Chosen(name: string): nat {
      Free(name, if name in counts then counts[name] else 0, Used())
    }

    function Add(name: string): Naming {
      Naming(counts[name := Chosen(name) + 1], labels + [Form(name, Chosen(name))])
    }
  }

  function Named(names: seq<string>): Naming {
    if names == [] then Naming(map[], []) else Named(names[..|names| - 1]).Add(names[|names| - 1])
  }

  function Labels(names: seq<string>): seq<string> {
    Named(names).labels
  }

  method DisambiguateLabels(names: seq<string>) returns (labels: seq<string>)
    ensures labels == Labels(names)
  {
    hide Form, Free;
    var counts: map<string, nat> := map[];
    var used: set<string> := {};
    labels := [];
    for i := 0 to |names|
      invariant Named(names[..i]) == Naming(counts, labels)
      invariant used == Naming(counts, labels).Used()
    {
      assert names[..i + 1][..i] == names[..i];
      var name := names[i];
      var n := if name in counts then counts[name] else 0;
      ghost var free := Free(name, n, used);
      var text := Form(name, n);
      while text in used
        invariant 0 <= n <= free && text == Form(name, n)
        decreases free - n
      {
        n := n + 1;
        text := Form(name, n);
      }
      counts := counts[name := n + 1];
      used := used + {text};
      labels := labels + [text];
    }
    assert names[..|names|] == names;
  }

  /** One label a name, no two alike. */
  lemma {:induction false} LabelsAreUnique(names: seq<string>)
    ensures var labels := Labels(names);
            |labels| == |names| && forall i, j | 0 <= i < j < |labels| :: labels[i] != labels[j]
  {
    hide Form, Free;
    if names != [] { LabelsAreUnique(names[..|names| - 1]); }
  }

  /** The labels of a shorter list are a prefix, and each label is a form of its name. */
  lemma {:induction false} LabelAt(names: seq<string>, i: nat)
    requires i < |names|
    ensures |Labels(names)| == |names| && |Labels(names[..i])| == i
    ensures Labels(names) [..i] == Labels(names[..i])
    ensures Labels(names)[i] == Form(names[i], Named(names[..i]).Chosen(names[i]))
  {
    hide Form, Free;
    var m := |names| - 1;
    LabelsAreUnique(names);
    LabelsAreUnique(names[..i]);
    if i < m {
      assert names[..m][..i] == names[..i];
      LabelAt(names[..m], i);
    }
  }

  /** A name counted before is itself a label by now. */
  lemma {:induction false} CountedIsUsed(names: seq<string>)
    ensures forall name | name in Named(names).counts :: name in Labels(names) && Named(names).counts[name] > 0
  {
    hide Form, Free;
    if names != [] {
      var m := |names| - 1;
      CountedIsUsed(names[..m]);
      FirstForm(names[m]);
      assert Named(names[..m]).Chosen(names[m]) > 0 ==> names[m] in Labels(names[..m]);
    }
  }

  lemma FirstForm(name: string)
    ensures Form(name, 0) == name
    ensures forall n: nat | n > 0 :: Form(name, n) != name
  {
  }

  /** A name is its own label exactly when it is no label before it: coming first is not enough. */
  lemma KeepsNameIff(names: seq<string>, i: nat)
    requires i < |names|
    ensures |Labels(names)| == |names|
    ensures Labels(names)[i] == names[i] <==> names[i] !in Labels(names)[..i]
  {
    hide Form, Free;
    LabelAt(names, i);
    CountedIsUsed(names[..i]);
    FirstForm(names[i]);
  }

  lemma SmallPrints()
    ensures Print(0) == "0" && Print(2) == "2"
  {
  }

  /** A name that an earlier repeat took is renamed at its first occurrence: a third "Aurora (2)". */
  lemma FirstOccurrenceRenamed(name: string)
    ensures var names := [name, name, name + " (2)"];
            |Labels(names)| == 3 && names[2] !in names[..2] && Labels(names)[2] != names[2]
  {
    hide Free;
    var names := [name, name, name + " (2)"];
    assert names[..0] == [] && names[..1] == [name] && [name][..0] == [] && names[..2] == [name, name];
    assert Print(2) == "2" && Form(name, 1) == names[2];
    KeepsNameIff(names, 0);
    LabelAt(names, 1);
    var first := Named([name]);
    assert first == Naming(map[], []).Add(name);
    assert first.counts[name] >= 1 && first.labels == [name];
    assert Labels(names)[1] == names[2];
    KeepsNameIff(names, 2);
  }

  // What the labels are, from the names alone.

  function Occurrences(names: seq<string>, name: string): nat {
    if names == [] then 0
    else Occurrences(names[..|names| - 1], name) + (if names[|names| - 1] == name then 1 else 0)
  }

  lemma {:induction false} OccursIff(names: seq<string>, name: string)
    ensures name in names <==> Occurrences(names, name) > 0
  {
    if names != [] {
      OccursIff(names[..|names| - 1], name);
      assert names == names[..|names| - 1] + [names[|names| - 1]];
    }
  }

  /** A numbered form says which name it is of, and its number. */
  lemma FormDetermines(a: string, m: nat, b: string, n: nat)
    requires m > 0 && n > 0 && Form(a, m) == Form(b, n)
    ensures a == b && m == n
  {
    var s, d, e := Form(a, m), Print(m + 1), Print(n + 1);
    assert s[|a| + 1] == '(' && forall i | |a| + 2 <= i < |s| - 1 :: s[i] == d[i - |a| - 2];
    assert s[|b| + 1] == '(' && forall i | |b| + 2 <= i < |s| - 1 :: s[i] == e[i - |b| - 2];
    assert s[..|a|] == a && s[..|b|] == b;
    AllFormsDiffer(a);
  }

  /** A first occurrence that is no numbered form of an earlier name keeps its name. */
  lemma PlainNameStays(names: seq<string>, i: nat)
    requires i < |names| && names[i] !in names[..i]
    requires forall x, k: nat | x in names[..i] && k > 0 :: names[i] != Form(x, k)
    ensures |Labels(names)| == |names| && Labels(names)[i] == names[i]
  {
    hide Free, Form;
    KeepsNameIff(names, i);
    LabelsAreUnique(names[..i]);
    LabelAt(names, i);
    forall j | 0 <= j < i ensures Labels(names)[j] != names[i] {
      LabelAt(names, j);
      var k := Named(names[..j]).Chosen(names[j]);
      assert names[j] in names[..i];
      FirstForm(names[j]);
      assert k > 0 ==> names[i] != Form(names[j], k);
    }
  }

  /** A counter has passed at least the occurrences of its name, and every form it has passed is a label. */
  lemma {:induction false} PassedAreLabels(names: seq<string>, name: string)
    ensures var counts := Named(names).counts;
            && Occurrences(names, name) <= (if name in counts then counts[name] else 0)
            && (name in counts ==> forall k: nat | k < counts[name] :: Form(name, k) in Labels(names))
  {
    hide Form, Free;
    if names != [] {
      var m := |names| - 1;
      PassedAreLabels(names[..m], name);
      PassedStep(Named(names[..m]), names[m], name);
    }
  }

  lemma PassedStep(before: Naming, added: string, name: string)
    requires name in before.counts ==> forall k: nat | k < before.counts[name] :: Form(name, k) in before.labels
    ensures var after := before.Add(added);
            && (name == added ==>
                name in after.counts && after.counts[name] > (if name in before.counts then before.counts[name] else 0))
            && (name != added ==>
                (name in after.counts <==> name in before.counts)
                    && (name in before.counts ==> after.counts[name] == before.counts[name]))
            && (name in after.counts ==> forall k: nat | k < after.counts[name] :: Form(name, k) in after.labels)
  {
    hide Form;
    var n := if added in before.counts then before.counts[added] else 0;
    var c := before.Chosen(added);
    assert before.Add(added).labels == before.labels + [Form(added, c)];
    assert forall k: nat | n <= k < c :: Form(added, k) in before.labels;
  }

  /** A name with a number. */
  function Numbered(name: string, number: nat): string {
    name + " (" + Print(number) + ")"
  }

  /**
   * What a label is, read off the labels before it: the name where that is free, else the name with the least number
   * from 2 on that makes it free.
   */
  lemma LeastFreeForm(names: seq<string>, i: nat) returns (k: nat)
    requires i < |names|
    ensures |Labels(names)| == |names|
    ensures Labels(names)[i] == (if k < 2 then names[i] else Numbered(names[i], k))
    ensures Labels(names)[i] !in Labels(names)[..i]
    ensures k >= 2 ==> names[i] in Labels(names)[..i]
    ensures forall j: nat | 2 <= j < k :: Numbered(names[i], j) in Labels(names)[..i]
  {
    hide Form, Free, Numbered;
    LabelAt(names, i);
    PassedAreLabels(names[..i], names[i]);
    var chosen := Named(names[..i]).Chosen(names[i]);
    FormsBelow(Named(names[..i]), names[i]);
    FormIs(names[i], chosen);
    k := chosen + 1;
    FormIs(names[i], 0);
    assert chosen > 0 ==> Form(names[i], 0) in Labels(names)[..i];
    forall j: nat | 2 <= j < k ensures Numbered(names[i], j) in Labels(names)[..i] {
      FormIs(names[i], j - 1);
      assert Form(names[i], j - 1) in Labels(names)[..i];
    }
  }

  lemma FormIs(name: string, n: nat)
    ensures Form(name, n) == if n == 0 then name else Numbered(name, n + 1)
  {
  }

  lemma FormsBelow(naming: Naming, name: string)
    requires name in naming.counts ==> forall k: nat | k < naming.counts[name] :: Form(name, k) in naming.labels
    ensures forall k: nat | k < naming.Chosen(name) :: Form(name, k) in naming.labels
    ensures Form(name, naming.Chosen(name)) !in naming.labels
  {
    hide Form;
  }

  /** The `k`-th form of a name that occurred more than `k` times before is taken, so whoever is named so is renamed. */
  lemma TakenFormIsRenamed(names: seq<string>, i: nat, name: string, k: nat)
    requires i < |names| && k < Occurrences(names[..i], name) && names[i] == Form(name, k)
    ensures |Labels(names)| == |names| && Labels(names)[i] != names[i]
  {
    hide Form, Free;
    PassedAreLabels(names[..i], name);
    LabelAt(names, i);
    KeepsNameIff(names, i);
  }

  /** No name of the list is a numbered form of another one. */
  ghost predicate Unnumbered(names: seq<string>) {
    forall a, b, k: nat | a in names && b in names && k > 0 :: b != Form(a, k)
  }

  /** Then the labels are exactly the first forms of each name, as many as it occurs. */
  ghost predicate FirstForms(names: seq<string>, labels: seq<string>) {
    forall l :: l in labels <==> exists x, k: nat :: k < Occurrences(names, x) && l == Form(x, k)
  }

  ghost predicate CountsOccurrences(names: seq<string>, counts: map<string, nat>) {
    forall x :: (if x in counts then counts[x] else 0) == Occurrences(names, x)
  }

  lemma {:induction false} UnnumberedLabels(names: seq<string>)
    requires Unnumbered(names)
    ensures FirstForms(names, Labels(names)) && CountsOccurrences(names, Named(names).counts)
  {
    hide Form, Free;
    if names != [] {
      var m := |names| - 1;
      assert Unnumbered(names[..m]) by { assert forall a | a in names[..m] :: a in names; }
      UnnumberedLabels(names[..m]);
      NextIsFree(names);
      OneMoreForm(names);
    }
  }

  /** The form the counter stands at is free. */
  lemma NextIsFree(names: seq<string>)
    requires names != [] && Unnumbered(names)
    requires var init := names[..|names| - 1];
             FirstForms(init, Labels(init)) && CountsOccurrences(init, Named(init).counts)
    ensures var init, name := names[..|names| - 1], names[|names| - 1];
            Named(init).Chosen(name) == Occurrences(init, name)
  {
    hide Form;
    var init, name := names[..|names| - 1], names[|names| - 1];
    var n := Occurrences(init, name);
    if Form(name, n) in Labels(init) {
      var x, k: nat :| k < Occurrences(init, x) && Form(name, n) == Form(x, k);
      OccursIff(init, x);
      FormsMeet(names, name, n, x, k);
      assert false;
    }
  }

  /** In such a list two forms of its names are equal only if name and number are. */
  lemma FormsMeet(names: seq<string>, a: string, m: nat, b: string, n: nat)
    requires Unnumbered(names) && a in names && b in names && Form(a, m) == Form(b, n)
    ensures a == b && m == n
  {
    hide Form;
    if m > 0 && n > 0 { FormDetermines(a, m, b, n); }
    FirstForm(a);
    FirstForm(b);
    AllFormsDiffer(a);
  }

  lemma OneMoreForm(names: seq<string>)
    requires names != []
    requires var init, name := names[..|names| - 1], names[|names| - 1];
             && FirstForms(init, Labels(init)) && CountsOccurrences(init, Named(init).counts)
             && Named(init).Chosen(name) == Occurrences(init, name)
    ensures FirstForms(names, Labels(names)) && CountsOccurrences(names, Named(names).counts)
  {
    hide Form, Free;
    var init, name := names[..|names| - 1], names[|names| - 1];
    var n := Occurrences(init, name);
    assert Labels(names) == Labels(init) + [Form(name, n)];
    forall l | l in Labels(names) ensures exists x, k: nat :: k < Occurrences(names, x) && l == Form(x, k) {
      if l in Labels(init) {
        var x, k: nat :| k < Occurrences(init, x) && l == Form(x, k);
        assert k < Occurrences(names, x);
      } else {
        assert n < Occurrences(names, name) && l == Form(name, n);
      }
    }
    forall x, k: nat | k < Occurrences(names, x) ensures Form(x, k) in Labels(names) {
      if k < Occurrences(init, x) { assert Form(x, k) in Labels(init); }
    }
  }

  /**
   * Where no earlier name is a numbered form of another, a name is its own label exactly when it did not come before
   * and is no form of an earlier name that occurred often enough to take it.
   */
  lemma KeepsNameIffUntaken(names: seq<string>, i: nat)
    requires i < |names| && Unnumbered(names[..i])
    ensures |Labels(names)| == |names|
    ensures Labels(names)[i] == names[i] <==>
              names[i] !in names[..i] && forall x, k: nat | k < Occurrences(names[..i], x) :: names[i] != Form(x, k)
  {
    hide Form, Free;
    LabelAt(names, i);
    KeepsNameIff(names, i);
    UnnumberedLabels(names[..i]);
    OccursIff(names[..i], names[i]);
    FirstForm(names[i]);
  }

  /** Without that, the form of a name that came only once can be taken too: a fourth "Aurora (2) (2)". */
  lemma SingleNameTakesAForm(name: string)
    ensures var names := [name, name, name + " (2)", name + " (2) (2)"];
            && |Labels(names)| == 4 && Labels(names)[3] != names[3]
            && forall x, k: nat | Occurrences(names[..3], x) > 1 :: names[3] != Form(x, k)
  {
    hide Free;
    var names, third := [name, name, name + " (2)", name + " (2) (2)"], name + " (2)";
    assert Print(2) == "2" && Form(name, 1) == third && Form(third, 1) == names[3];
    FirstOccurrenceRenamed(name);
    assert names[..3] == [name, name, third];
    LabelAt([name, name, third], 2);
    ThirdChooses(name);
    LabelAt(names, 3);
    KeepsNameIff(names, 3);
    forall x, k: nat | Occurrences(names[..3], x) > 1 ensures names[3] != Form(x, k) {
      OnlyTwice(name, third, x);
      if k > 0 && Form(third, 1) == Form(x, k) { FormDetermines(third, 1, x, k); }
    }
  }

  lemma OnlyTwice(name: string, third: string, x: string)
    requires name != third && Occurrences([name, name, third], x) > 1
    ensures x == name
  {
    assert [name, name, third][..2] == [name, name] && [name, name][..1] == [name] && [name][..0] == [];
    assert Occurrences([name], x) <= 1;
  }

  lemma ThirdChooses(name: string)
    ensures var third := name + " (2)";
            |Labels([name, name, third])| == 3 && Labels([name, name, third])[2] == Form(third, 1)
  {
    hide Print, Free;
    var third := name + " (2)";
    var two, before := [name, name], Named([name, name]);
    assert [name, name, third][..2] == two;
    FirstOccurrenceRenamed(name);
    LabelAt([name, name, third], 2);
    TwoLabels(name);
    SmallPrints();
    assert third !in before.counts by { CountedAreNames(two); }
    assert Form(third, 0) in before.labels;
    ChoosesSecond(before, third);
  }

  /** A name that is a label and was not counted takes its second form when that is free. */
  lemma ChoosesSecond(before: Naming, name: string)
    requires name !in before.counts && name in before.labels && Form(name, 1) !in before.labels
    ensures before.Chosen(name) == 1
  {
    FirstForm(name);
  }

  lemma {:induction false} CountedAreNames(names: seq<string>)
    ensures forall x | x in Named(names).counts :: x in names
  {
    hide Form, Free;
    if names != [] {
      CountedAreNames(names[..|names| - 1]);
      assert names == names[..|names| - 1] + [names[|names| - 1]];
    }
  }

  lemma TwoLabels(name: string)
    ensures Labels([name, name]) == [name, name + " (2)"]
  {
    hide Free;
    assert [name, name][..1] == [name] && [name][..0] == [];
    KeepsNameIff([name, name], 0);
    LabelAt([name, name], 1);
    var first := Named([name]);
    assert first == Naming(map[], []).Add(name);
    assert Print(2) == "2" && Form(name, 1) == name + " (2)";
    assert first.counts[name] >= 1 && first.labels == [name];
  }

  // ----- the map and its reverse lookup -----

  datatype Item = Item(key: string, text: string)

  /** The `common.states` map in its iteration order: "0" is the sentinel, then one key an item. */
  function LabelMap(names: seq<string>, zeroLabel: string): (items: seq<Item>)
    ensures |items| == |Labels(names)| + 1
  {
    [Item(Print(0), zeroLabel)] + seq(|Labels(names)|,
        i requires 0 <= i < |Labels(names)| => Item(Print(i + 1), Labels(names)[i]))
  }

  method BuildUniqueLabelMap(names: seq<string>, zeroLabel: string) returns (items: seq<Item>)
    ensures items == LabelMap(names, zeroLabel)
    ensures |items| == |names| + 1 == |Labels(names)| + 1 && items[0] == Item("0", zeroLabel)
    ensures forall i | 0 <= i < |names| :: items[i + 1] == Item(Print(i + 1), Labels(names)[i])
  {
    hide Labels, Print;
    SmallPrints();
    LabelsAreUnique(names);
    var labels := DisambiguateLabels(names);
    items := [Item(Print(0), zeroLabel)];
    for i := 0 to |labels|
      invariant |items| == i + 1 && items[0] == Item(Print(0), zeroLabel)
      invariant forall k | 0 <= k < i :: items[k + 1] == Item(Print(k + 1), labels[k])
    {
      items := items + [Item(Print(i + 1), labels[i])];
    }
  }

  /** What two labels are compared by. */
  function Fold(s: string): string {
    Lower(Trim(s))
  }

  /** A written state value; a number that is no integer prints as no key. */
  datatype Input = Whole(n: int) | Text(s: string) | Other

  /** The first item with this key. */
  function ByKey(items: seq<Item>, key: string): (k: nat)
    ensures k <= |items|
    ensures k < |items| ==> items[k].key == key
    ensures forall j | 0 <= j < k :: items[j].key != key
  {
    if items == [] || items[0].key == key then 0 else 1 + ByKey(items[1..], key)
  }

  /** The first item whose label folds to the needle. */
  function ByLabel(items: seq<Item>, needle: string): nat {
    if items == [] || Fold(items[0].text) == needle then 0 else 1 + ByLabel(items[1..], needle)
  }

  lemma {:induction false} ByLabelIsFirst(items: seq<Item>, needle: string)
    ensures var k := ByLabel(items, needle);
            && k <= |items|
            && (k < |items| ==> Fold(items[k].text) == needle)
            && (forall j | 0 <= j < k :: Fold(items[j].text) != needle)
  {
    hide Fold;
    if items != [] && Fold(items[0].text) != needle {
      ByLabelIsFirst(items[1..], needle);
      assert forall j | 0 < j < |items| :: items[j] == items[1..][j - 1];
    }
  }

  function At(items: seq<Item>, k: nat): Option<Item> {
    if k < |items| then Some(items[k]) else None
  }

  function Resolve(input: Input, items: seq<Item>): Option<Item> {
    match input
    case Whole(n) => At(items, ByKey(items, PrintInt(n)))
    case Other => None
    case Text(s) =>
      var trimmed := Trim(s);
      if trimmed == "" then None
      else if ByKey(items, trimmed) < |items| then At(items, ByKey(items, trimmed))
      else At(items, ByLabel(items, Lower(trimmed)))
  }

  method ResolveStatesValue(input: Input, items: seq<Item>) returns (r: Option<Item>)
    ensures r == Resolve(input, items)
  {
    hide Trim, Lower, PrintInt;
    match input
    case Other => return None;
    case Whole(n) =>
      var k := FindKey(items, PrintInt(n));
      return if k < |items| then Some(items[k]) else None;
    case Text(s) =>
      var trimmed := Trim(s);
      if trimmed == "" { return None; }
      var k := FindKey(items, trimmed);
      if k < |items| { return Some(items[k]); }
      var needle := Lower(trimmed);
      ByLabelIsFirst(items, needle);
      for j := 0 to |items|
        invariant forall i | 0 <= i < j :: Fold(items[i].text) != needle
      {
        if Lower(Trim(items[j].text)) == needle { return Some(items[j]); }
      }
      return None;
  }

  method FindKey(items: seq<Item>, key: string) returns (k: nat)
    ensures k == ByKey(items, key)
  {
    k := 0;
    while k < |items| && items[k].key != key
      invariant 0 <= k <= |items| && forall j | 0 <= j < k :: items[j].key != key
    {
      k := k + 1;
    }
  }

  lemma DigitsStayWhole(n: nat)
    ensures Trim(Print(n)) == Print(n)
  {
    var s := Print(n);
    hide Print;
    assert '0' <= s[0] <= '9' && '0' <= s[|s| - 1] <= '9';
    NothingToTrim(s);
  }

  lemma NothingToTrim(s: string)
    requires s != "" && !IsSpace(s[0]) && !IsSpace(s[|s| - 1])
    ensures Trim(s) == s
  {
  }

  /** In a built map every key, as a number or as text, resolves to its own item. */
  lemma KeysResolve(names: seq<string>, zeroLabel: string, i: nat)
    requires i <= |names|
    ensures |LabelMap(names, zeroLabel)| == |names| + 1
    ensures var items := LabelMap(names, zeroLabel);
            Resolve(Whole(i), items) == Resolve(Text(Print(i)), items) == Some(items[i])
  {
    hide Print, Trim, Labels;
    LabelsAreUnique(names);
    var items := LabelMap(names, zeroLabel);
    DigitsStayWhole(i);
    var k := ByKey(items, Print(i));
    assert items[i].key == Print(i);
    PrintInjective(k, i);
  }

  ghost predicate DistinctKeys(items: seq<Item>) {
    forall i, j | 0 <= i < j < |items| :: items[i].key != items[j].key
  }

  lemma BuiltKeysDiffer(names: seq<string>, zeroLabel: string)
    ensures DistinctKeys(LabelMap(names, zeroLabel))
  {
    hide Print, Labels;
    var items := LabelMap(names, zeroLabel);
    forall i, j | 0 <= i < j < |items| ensures items[i].key != items[j].key {
      if Print(i) == Print(j) { PrintInjective(i, j); }
    }
  }

  /** The text of a label is not blank, reads as no other key, and no earlier label folds to the same. */
  ghost predicate Reachable(items: seq<Item>, i: nat)
    requires i < |items|
  {
    var trimmed := Trim(items[i].text);
    && trimmed != ""
    && (forall j | 0 <= j < |items| && j != i :: items[j].key != trimmed)
    && (items[i].key == trimmed || forall j | 0 <= j < i :: Fold(items[j].text) != Fold(items[i].text))
  }

  /** Exactly when a written label comes back as its own item. */
  lemma LabelResolvesIff(items: seq<Item>, i: nat)
    requires i < |items| && DistinctKeys(items)
    ensures Resolve(Text(items[i].text), items) == Some(items[i]) <==> Reachable(items, i)
  {
    var trimmed := Trim(items[i].text);
    var k, l := ByKey(items, trimmed), ByLabel(items, Lower(trimmed));
    ByLabelIsFirst(items, Lower(trimmed));
    assert Fold(items[i].text) == Lower(trimmed);
  }

  /** A dropdown whose labels differ after folding and read as no key gives every label back. */
  lemma DistinctLabelsResolve(items: seq<Item>, i: nat)
    requires i < |items| && DistinctKeys(items)
    requires forall j | 0 <= j < |items| ::
             Trim(items[j].text) != "" && forall k | 0 <= k < |items| :: items[k].key != Trim(items[j].text)
    requires forall j, k | 0 <= j < k < |items| :: Fold(items[j].text) != Fold(items[k].text)
    ensures Resolve(Text(items[i].text), items) == Some(items[i])
  {
    LabelResolvesIff(items, i);
  }

  /**
   * What the lookup returns is an item of the map with the written key, or, where no item has it, the first whose label
   * reads the same; it finds nothing only when nothing matches.
   */
  lemma LookupIsComplete(input: Input, items: seq<Item>)
    ensures match (input, Resolve(input, items))
            case (Whole(n), Some(item)) => item in items && item.key == PrintInt(n)
            case (Whole(n), None) => forall item | item in items :: item.key != PrintInt(n)
            case (Text(s), Some(item)) =>
              && Trim(s) != ""
              && exists i | 0 <= i < |items| ::
                   && items[i] == item
                   && (item.key == Trim(s)
                       || ((forall other | other in items :: other.key != Trim(s))
                           && Lower(Trim(item.text)) == Lower(Trim(s))
                           && forall j | 0 <= j < i :: Lower(Trim(items[j].text)) != Lower(Trim(s))))
            case (Text(s), None) =>
              Trim(s) == "" || forall item | item in items ::
                item.key != Trim(s) && Lower(Trim(item.text)) != Lower(Trim(s))
            case (Other, r) => r.None?
  {
    hide PrintInt, Trim, Lower;
    match input
    case Whole(n) => var k := ByKey(items, PrintInt(n));
    case Text(s) =>
      var k, l := ByKey(items, Trim(s)), ByLabel(items, Lower(Trim(s)));
      ByLabelIsFirst(items, Lower(Trim(s)));
    case Other =>
  }
}
