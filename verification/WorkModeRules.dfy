/** What the dropdowns of a work mode offer, take and show, read off the options that were declared. */
module WorkModeRules {
  import opened Ascii
  import opened Decimal
  import opened Filters
  import opened Options
  import opened WorkMode

  // ----- options -----

  predicate IsNumber(v: Value, n: int) {
    v == Num(n) || (v.Text? && v.number == Some(n))
  }

  predicate IsGroup(o: Opt) {
    o.options.Some? && |o.options.value| > 0
  }

  predicate IsRange(o: Opt) {
    o.range.Some? && o.range.value.min.Some? && o.range.value.max.Some?
  }

  /** The value is shown as `s`. */
  predicate ShownAs(v: Value, s: string) {
    match v
    case Absent => s == "undefined"
    case Null => s == "null"
    case Num(n) => s == PrintInt(n)
    case Text(t, _) => s == t
    case Composite(json) => s == json
  }

  /** The option has a value, and it is written as `s`. */
  predicate WrittenAs(o: Opt, s: string) {
    o.value != Absent && o.value != Null && ShownAs(o.value, s)
  }

  /** The label of the option is `s`, in whatever case. */
  predicate LabelledAs(o: Opt, s: string) {
    o.name.Some? && Lower(o.name.value) == Lower(s)
  }

  /** `raw` picks option `k`: the first one written so, else the first labelled so, else none. */
  ghost predicate PicksAt(options: seq<Opt>, raw: Written, k: nat) {
    if raw.Nothing? || Trim(raw.text) == "" then k == |options|
    else
      var s := Trim(raw.text);
      if exists o | o in options :: WrittenAs(o, s) then
        k < |options| && WrittenAs(options[k], s) && forall j | 0 <= j < k :: !WrittenAs(options[j], s)
      else if exists o | o in options :: LabelledAs(o, s) then
        k < |options| && LabelledAs(options[k], s) && forall j | 0 <= j < k :: !LabelledAs(options[j], s)
      else k == |options|
  }

  /** Option `k` is the first with the name; there is none when `k` is their number. */
  ghost predicate NamedAt(options: seq<Opt>, name: Option<string>, k: nat) {
    && k <= |options| && (k < |options| ==> options[k].name == name)
    && forall j | 0 <= j < k :: options[j].name != name
  }

  lemma PickIs(options: seq<Opt>, raw: Written) returns (k: nat)
    ensures PicksAt(options, raw, k) && k <= |options|
    ensures PickOption(options, raw) == if k < |options| then Some(options[k]) else None
  {
    hide PrintInt, Trim, Lower;
    k := |options|;
    if raw.Written? && Trim(raw.text) != "" {
      var s := Trim(raw.text);
      assert forall o | o in options :: (HasValue(o, s) <==> WrittenAs(o, s)) && (ReadsAs(o, s) <==> LabelledAs(o, s));
      var v, l := ByValue(options, s), ByLabel(options, s);
      assert forall i | 0 <= i < |options| :: options[i] in options;
      k := if v < |options| then v else l;
    }
  }

  lemma NamedIs(options: seq<Opt>, name: Option<string>)
    ensures NamedAt(options, name, ByName(options, name))
  {
  }

  lemma NumberIs(v: Value)
    ensures forall n :: IsNumber(v, n) <==> CoerceNum(v) == Some(n)
  {
  }

  // ----- what is declared -----

  /** Some option declares the level `n` under this name, in a group or, with an empty group name, outside of any. */
  ghost predicate Declares(options: seq<Opt>, l: Level) {
    exists o | o in options :: DeclaredBy(o, l)
  }

  ghost predicate DeclaredBy(o: Opt, l: Level) {
    if IsGroup(o) then
      && l.group == (if o.name.Some? then o.name.value else "")
      && exists sub | sub in o.options.value :: IsNumber(sub.value, l.value) && sub.name == l.name
    else
      && !IsRange(o) && IsNumber(o.value, l.value) && l.group == ""
      && l.name == if o.name == Some("") then None else o.name
  }

  ghost predicate DeclaresRange(options: seq<Opt>, min: int, max: int) {
    exists o | o in options :: !IsGroup(o) && o.range == Some(Range(Some(min), Some(max)))
  }

  lemma {:induction false} SubLevelsAre(group: string, subs: seq<Opt>, l: Level)
    ensures l in SubLevels(group, subs) <==>
            l.group == group && exists sub | sub in subs :: IsNumber(sub.value, l.value) && sub.name == l.name
  {
    if subs != [] {
      var n := |subs| - 1;
      SubLevelsAre(group, subs[..n], l);
      NumberIs(subs[n].value);
      assert forall sub :: sub in subs <==> sub in subs[..n] || sub == subs[n];
    }
  }

  lemma LevelsOfAre(o: Opt, l: Level)
    ensures l in LevelsOf(o) <==> DeclaredBy(o, l)
  {
    hide CoerceNum, SubLevels;
    NumberIs(o.value);
    if o.Group() { SubLevelsAre(if o.name.Some? then o.name.value else "", o.options.value, l); }
  }

  lemma {:induction false} LevelsAre(options: seq<Opt>, l: Level)
    ensures l in AllLevels(options) <==> Declares(options, l)
  {
    hide LevelsOf, DeclaredBy;
    if options != [] {
      var n := |options| - 1;
      LevelsAre(options[..n], l);
      LevelsOfAre(options[n], l);
      assert forall o :: o in options <==> o in options[..n] || o == options[n];
    }
  }

  lemma {:induction false} RangesAre(options: seq<Opt>, min: int, max: int)
    ensures Range(Some(min), Some(max)) in AllRanges(options) <==> DeclaresRange(options, min, max)
  {
    if options != [] {
      var n := |options| - 1;
      RangesAre(options[..n], min, max);
      assert forall o :: o in options <==> o in options[..n] || o == options[n];
    }
  }

  // ----- the shape -----

  ghost predicate NothingDeclared(options: seq<Opt>) {
    (forall l :: !Declares(options, l)) && NoRange(options)
  }

  ghost predicate NoRange(options: seq<Opt>) {
    forall min, max :: !DeclaresRange(options, min, max)
  }

  /** Every level has a name, and no two groups share one. */
  ghost predicate FitsOneList(options: seq<Opt>) {
    && NoRange(options)
    && (forall l | Declares(options, l) :: l.name.Some?)
    && (forall l, m | Declares(options, l) && Declares(options, m) && l.value == m.value :: l.group == m.group)
  }

  /** One entry a level, under its printed value, with the caption of a level of that value. */
  ghost predicate Lists(states: map<string, string>, options: seq<Opt>, caption: string -> string) {
    && (forall l | Declares(options, l) :: PrintInt(l.value) in states)
    && (forall key | key in states ::
          exists l :: Declares(options, l) && PrintInt(l.value) == key && l.name.Some?
              && states[key] == caption(l.name.value))
  }

  /** `n` is a level or an end of a range. */
  ghost predicate Occurs(options: seq<Opt>, n: int) {
    || (exists l :: Declares(options, l) && l.value == n)
    || (exists min, max :: DeclaresRange(options, min, max) && (n == min || n == max))
  }

  /** The shape of the level datapoint: which of the three it is, and what it holds. */
  ghost predicate ShapeIs(options: seq<Opt>, caption: string -> string, shape: Shape) {
    match shape
    case NoLevels => NothingDeclared(options)
    case Dropdown(states) => !NothingDeclared(options) && FitsOneList(options) && Lists(states, options, caption)
    case Number(min, max) =>
      && !NothingDeclared(options) && !FitsOneList(options)
      && Occurs(options, min) && Occurs(options, max) && forall n | Occurs(options, n) :: min <= n <= max
  }

  lemma {:induction false} StatesList(levels: seq<Level>, caption: string -> string)
    requires AllNamed(levels)
    ensures forall l | l in levels :: PrintInt(l.value) in StatesOf(levels, caption)
    ensures forall key | key in StatesOf(levels, caption) ::
              exists l :: l in levels && PrintInt(l.value) == key
                  && StatesOf(levels, caption)[key] == caption(l.name.value)
  {
    hide PrintInt;
    if levels != [] {
      var n := |levels| - 1;
      StatesList(levels[..n], caption);
      assert forall l :: l in levels <==> l in levels[..n] || l == levels[n];
    }
  }

  lemma NamedAll(options: seq<Opt>)
    ensures AllNamed(AllLevels(options)) <==> forall l | Declares(options, l) :: l.name.Some?
  {
    hide Declares;
    forall l ensures l in AllLevels(options) <==> Declares(options, l) { LevelsAre(options, l); }
  }

  lemma ClashIs(options: seq<Opt>)
    ensures Clash(AllLevels(options)) <==>
            exists l, m :: Declares(options, l) && Declares(options, m) && l.value == m.value && l.group != m.group
  {
    hide Declares;
    var all := AllLevels(options);
    forall l ensures l in all <==> Declares(options, l) { LevelsAre(options, l); }
    if l, m :| l in all && m in all && l.value == m.value && l.group != m.group {
      var i :| 0 <= i < |all| && all[i] == l;
      var j :| 0 <= j < |all| && all[j] == m;
      assert i < j || j < i;
    }
  }

  lemma NoRanges(options: seq<Opt>)
    ensures AllRanges(options) == [] <==> NoRange(options)
  {
    hide DeclaresRange;
    RangesHaveEnds(options);
    var ranges := AllRanges(options);
    if ranges != [] {
      assert ranges[0] in ranges;
      RangesAre(options, ranges[0].min.value, ranges[0].max.value);
    }
    forall min, max | ranges == [] ensures !DeclaresRange(options, min, max) { RangesAre(options, min, max); }
  }

  lemma NoLevelsLeft(options: seq<Opt>)
    ensures AllLevels(options) == [] <==> forall l :: !Declares(options, l)
  {
    hide Declares;
    forall l ensures l in AllLevels(options) <==> Declares(options, l) { LevelsAre(options, l); }
    if AllLevels(options) != [] { assert AllLevels(options)[0] in AllLevels(options); }
  }

  lemma AllOccur(options: seq<Opt>, n: int)
    ensures forall r | r in AllRanges(options) :: r.min.Some? && r.max.Some?
    ensures n in Values(AllLevels(options)) + Ends(AllRanges(options)) <==> Occurs(options, n)
  {
    hide Declares, DeclaresRange;
    RangesHaveEnds(options);
    var levels, ranges := AllLevels(options), AllRanges(options);
    forall l ensures l in levels <==> Declares(options, l) { LevelsAre(options, l); }
    forall min, max ensures Range(Some(min), Some(max)) in ranges <==> DeclaresRange(options, min, max) {
      RangesAre(options, min, max);
    }
    forall r | r in ranges ensures DeclaresRange(options, r.min.value, r.max.value) {
      RangesAre(options, r.min.value, r.max.value);
    }
    LevelValues(levels, n);
    RangeEnds(ranges, n);
  }

  lemma LevelValues(levels: seq<Level>, n: int)
    ensures n in Values(levels) <==> exists l :: l in levels && l.value == n
  {
    if l :| l in levels && l.value == n {
      var i :| 0 <= i < |levels| && levels[i] == l;
      assert Values(levels)[i] == n;
    }
  }

  lemma RangeEnds(ranges: seq<Range>, n: int)
    requires forall r | r in ranges :: r.min.Some? && r.max.Some?
    ensures n in Ends(ranges) <==> exists r | r in ranges :: n == r.min.value || n == r.max.value
  {
    var ends := Ends(ranges);
    if n in ends {
      var i :| 0 <= i < |ends| && ends[i] == n;
      assert ranges[if i < |ranges| then i else i - |ranges|] in ranges;
    }
    if r :| r in ranges && (n == r.min.value || n == r.max.value) {
      var i :| 0 <= i < |ranges| && ranges[i] == r;
      assert ends[i] == r.min.value && ends[|ranges| + i] == r.max.value && ends[i] in ends
             && ends[|ranges| + i] in ends;
    }
  }

  lemma ListIs(options: seq<Opt>, caption: string -> string)
    requires AllNamed(AllLevels(options))
    ensures Lists(StatesOf(AllLevels(options), caption), options, caption)
  {
    hide Declares, PrintInt, AllLevels;
    forall l ensures l in AllLevels(options) <==> Declares(options, l) { LevelsAre(options, l); }
    StatesList(AllLevels(options), caption);
    assert forall l | l in AllLevels(options) :: l.name.Some?;
    forall key | key in StatesOf(AllLevels(options), caption)
      ensures exists l :: Declares(options, l) && PrintInt(l.value) == key && l.name.Some?
                && StatesOf(AllLevels(options), caption)[key] == caption(l.name.value)
    {
      var l :| l in AllLevels(options) && PrintInt(l.value) == key
        && StatesOf(AllLevels(options), caption)[key] == caption(l.name.value);
      assert Declares(options, l);
    }
  }

  /** The shape that is built is the one the declared levels and ranges call for. */
  lemma ClassifyIs(options: seq<Opt>, caption: string -> string)
    ensures ShapeIs(options, caption, Classify(options, caption))
  {
    hide Declares, DeclaresRange, Clash, AllNamed, StatesOf, Values, Ends, Occurs, Lists, AllLevels, AllRanges;
    NoRanges(options);
    NoLevelsLeft(options);
    NamedAll(options);
    ClashIs(options);
    RangesHaveEnds(options);
    match Classify(options, caption)
    case NoLevels =>
    case Dropdown(_) => ListIs(options, caption);
    case Number(_, _) =>
      forall n ensures n in Values(AllLevels(options)) + Ends(AllRanges(options)) <==> Occurs(options, n) {
        AllOccur(options, n);
      }
  }

  // ----- the command -----

  /** Option `k` is the first group of which the value picks a level. */
  ghost predicate OwnerAt(levels: seq<Opt>, raw: Written, k: nat) {
    && k <= |levels| && (k < |levels| ==> HasPick(levels[k], raw))
    && forall j | 0 <= j < k :: !HasPick(levels[j], raw)
  }

  ghost predicate HasPick(o: Opt, raw: Written) {
    IsGroup(o) && exists p | 0 <= p < |o.options.value| :: PicksAt(o.options.value, raw, p)
  }

  /** What a command is made from: places in the two option lists, and the levels the mode can take. */
  datatype Choice = Choice(owner: nat, named: nat, mode: nat, entry: nat, own: seq<Opt>, pick: nat)

  /**
   * The mode of the command: after a change of a level in a dropdown the first mode named like the group the level
   * belongs to, and where that names none, or else, the one the mode datapoint picks.
   */
  ghost predicate IsMode(c: Choice, cap: Capability, mode: Written, level: Written, byLevel: bool) {
    && OwnerAt(cap.Levels(), level, c.owner)
    && NamedAt(cap.Modes(), if c.owner < |cap.Levels()| then cap.Levels()[c.owner].name else None, c.named)
    && if byLevel && c.owner < |cap.Levels()| && c.named < |cap.Modes()| then c.mode == c.named
       else PicksAt(cap.Modes(), mode, c.mode)
  }

  predicate Flat(o: Opt) {
    o.options.None? && o.value != Absent && o.value != Null
  }

  /** The levels a mode can take: those of the first option of its name where that is a group, else the flat ones. */
  ghost predicate OwnList(levels: seq<Opt>, entry: nat, own: seq<Opt>) {
    if entry < |levels| && IsGroup(levels[entry]) then own == levels[entry].options.value
    else exists from :: IsFilter(levels, Flat, own, from)
  }

  /** `n` is the written number, kept inside the range, and the least where no number is written. */
  predicate Clamped(range: Range, level: Written, n: int)
    requires range.min.Some? && range.max.Some?
  {
    var min, max := range.min.value, range.max.value;
    if level.Nothing? || level.number.None? then n == min
    else
      var w := level.number.value;
      && (min <= w <= max ==> n == w) && (w > max ==> n == max)
      && (w < min <= max ==> n == min) && (w <= max < min ==> n == max)
  }

  /**
   * The level of the command: of the mode's list the one the level datapoint picks, else the first, as far as it is a
   * number; without a list, a value in the mode's range, else its default, else 0.
   */
  ghost predicate IsLevel(c: Choice, levels: seq<Opt>, name: Option<string>, level: Written, n: Option<int>) {
    && NamedAt(levels, name, c.entry) && OwnList(levels, c.entry, c.own) && PicksAt(c.own, level, c.pick)
    && if c.own != [] then
         forall v :: n == Some(v) <==> IsNumber(c.own[if c.pick < |c.own| then c.pick else 0].value, v)
       else if c.entry < |levels| && IsRange(levels[c.entry]) then
         n.Some? && Clamped(levels[c.entry].range.value, level, n.value)
       else
         n == Some(if c.entry < |levels| && levels[c.entry].defaultValue.Some? then levels[c.entry].defaultValue.value
                   else 0)
  }

  lemma OwnerIs(levels: seq<Opt>, raw: Written)
    ensures OwnerAt(levels, raw, Owner(levels, raw))
  {
    hide PickOption, PicksAt;
    OwnerIsFirst(levels, raw);
    forall o | o in levels ensures Owns(o, raw) <==> HasPick(o, raw) { PickOrNot(o, raw); }
  }

  lemma PickOrNot(o: Opt, raw: Written)
    ensures Owns(o, raw) <==> HasPick(o, raw)
  {
    hide PickOption;
    if o.Group() {
      var k := PickIs(o.options.value, raw);
      forall p: nat | p < |o.options.value| && PicksAt(o.options.value, raw, p) ensures p == k {
        OnePick(o.options.value, raw, p, k);
      }
    }
  }

  lemma OnePick(options: seq<Opt>, raw: Written, p: nat, k: nat)
    requires PicksAt(options, raw, p) && PicksAt(options, raw, k)
    ensures p == k
  {
    hide WrittenAs, LabelledAs, Trim;
  }

  lemma {:induction false} FlatIs(levels: seq<Opt>) returns (from: seq<nat>)
    ensures IsFilter(levels, Flat, FlatLevels(levels), from)
  {
    hide IsFilter;
    if levels == [] {
      from := [];
      NothingFiltered(Flat);
    } else {
      from := FlatIs(levels[1..]);
      FilterFront(levels, Flat, FlatLevels(levels[1..]), from);
      from := if Flat(levels[0]) then [0] + Shifted(from) else Shifted(from);
      FlatLevelsMore(levels);
    }
  }

  lemma FlatLevelsMore(levels: seq<Opt>)
    requires levels != []
    ensures FlatLevels(levels) == if Flat(levels[0]) then [levels[0]] + FlatLevels(levels[1..])
                                  else FlatLevels(levels[1..])
  {
  }

  lemma LevelForIs(cap: Capability, modeOpt: Opt, level: Written) returns (entry: nat, own: seq<Opt>, pick: nat)
    ensures forall c: Choice | c.entry == entry && c.own == own && c.pick == pick ::
              IsLevel(c, cap.Levels(), modeOpt.name, level, LevelFor(cap, modeOpt, level))
  {
    hide PickOption, PicksAt, CoerceNum, IsNumber, NamedAt, IsFilter;
    own, entry := OwnLevels(cap, modeOpt), ByName(cap.Levels(), modeOpt.name);
    NamedIs(cap.Levels(), modeOpt.name);
    OwnIs(cap, modeOpt);
    pick := PickIs(own, level);
    if own == [] {
      hide OwnLevels, OwnList;
      WithoutList(cap, modeOpt, level);
    } else {
      NumberIs(OwnLevel(own, level).value);
    }
  }

  lemma OwnIs(cap: Capability, modeOpt: Opt)
    ensures OwnList(cap.Levels(), ByName(cap.Levels(), modeOpt.name), OwnLevels(cap, modeOpt))
  {
    hide IsFilter;
    var from := FlatIs(cap.Levels());
  }

  lemma WithoutList(cap: Capability, modeOpt: Opt, level: Written)
    requires OwnLevels(cap, modeOpt) == []
    ensures var levels, entry, n := cap.Levels(), ByName(cap.Levels(), modeOpt.name), LevelFor(cap, modeOpt, level);
            if entry < |levels| && IsRange(levels[entry]) then
              n.Some? && Clamped(levels[entry].range.value, level, n.value)
            else
              n == Some(if entry < |levels| && levels[entry].defaultValue.Some? then levels[entry].defaultValue.value
                        else 0)
  {
    hide OwnLevels;
  }

  /** The command, from the declared options and the two datapoints. */
  lemma CommandIs(cap: Capability, mode: Written, level: Written, changed: Changed, caption: string -> string)
      returns (c: Choice, n: Option<int>)
    ensures IsMode(c, cap, mode, level, changed.LevelChanged? && Classify(cap.Levels(), caption).Dropdown?)
    ensures c.mode < |cap.Modes()| ==> IsLevel(c, cap.Levels(), cap.Modes()[c.mode].name, level, n)
    ensures forall w, v :: ResolveWorkModeStruct(cap, mode, level, changed, caption) == Some(Struct(w, v)) <==>
              c.mode < |cap.Modes()| && IsNumber(cap.Modes()[c.mode].value, w) && n == Some(v)
  {
    hide PickOption, PicksAt, LevelFor, IsLevel, CoerceNum, IsNumber, Classify, NamedAt, OwnerAt;
    var modes, levels, owner := cap.Modes(), cap.Levels(), Owner(cap.Levels(), level);
    OwnerIs(levels, level);
    OwnerIsFirst(levels, level);
    var name := if owner < |levels| then levels[owner].name else None;
    NamedIs(modes, name);
    var k := PickIs(modes, mode);
    if changed.LevelChanged? && Classify(levels, caption).Dropdown? && owner < |levels|
        && ByName(modes, name) < |modes| {
      k := ByName(modes, name);
    }
    n := None;
    c := Choice(owner, ByName(modes, name), k, 0, [], 0);
    if k < |modes| {
      var entry, own, pick := LevelForIs(cap, modes[k], level);
      NumberIs(modes[k].value);
      n := LevelFor(cap, modes[k], level);
      c := c.(entry := entry, own := own, pick := pick);
    }
  }

  // ----- the datapoints and their readings -----

  /** The list of the mode datapoint: the value of every named mode, with the caption of the last mode of that value. */
  ghost predicate ListsModes(states: map<string, string>, modes: seq<Opt>, caption: string -> string) {
    && (forall o, key | o in modes && o.name.Some? && ShownAs(o.value, key) :: key in states)
    && (forall key | key in states ::
          exists k | 0 <= k < |modes| ::
            && modes[k].name.Some? && ShownAs(modes[k].value, key) && states[key] == caption(modes[k].name.value)
            && forall j | k < j < |modes| && modes[j].name.Some? :: !ShownAs(modes[j].value, key))
  }

  /** The level datapoint of a field, if there is one: as the shape of its options says, or a number in its range. */
  ghost predicate LevelDefined(field: Field, caption: string -> string, defs: seq<Definition>) {
    if field.options == [] then
      defs == if field.range.Some? then [Definition("mode_value", None, field.range)] else []
    else
      match Classify(field.options, caption)
      case NoLevels => defs == []
      case Dropdown(states) => defs == [Definition("mode_value", Some(states), None)]
      case Number(min, max) => defs == [Definition("mode_value", None, Some(Range(Some(min), Some(max))))]
  }

  /** Mode `k` is the last named one that is listed under the key. */
  ghost predicate LastUnder(modes: seq<Opt>, key: string, k: nat) {
    && k < |modes| && modes[k].name.Some? && SafeStringify(modes[k].value) == key
    && forall j | k < j < |modes| && modes[j].name.Some? :: SafeStringify(modes[j].value) != key
  }

  lemma {:induction false} ModeStatesList(modes: seq<Opt>, caption: string -> string, key: string) returns (k: nat)
    ensures forall o | o in modes && o.name.Some? :: SafeStringify(o.value) in ModeStates(modes, caption)
    ensures key in ModeStates(modes, caption) ==>
              LastUnder(modes, key, k) && ModeStates(modes, caption)[key] == caption(modes[k].name.value)
  {
    hide SafeStringify;
    k := 0;
    if modes != [] {
      var n := |modes| - 1;
      k := ModeStatesList(modes[..n], caption, key);
      assert forall o :: o in modes <==> o in modes[..n] || o == modes[n];
      assert forall j | 0 <= j < n :: modes[..n][j] == modes[j];
      if modes[n].name.Some? && SafeStringify(modes[n].value) == key { k := n; }
    }
  }

  lemma ShownIs(v: Value, key: string)
    ensures ShownAs(v, key) <==> SafeStringify(v) == key
  {
  }

  lemma ModesAreListed(modes: seq<Opt>, caption: string -> string)
    ensures ListsModes(ModeStates(modes, caption), modes, caption)
  {
    hide SafeStringify, ShownAs, ModeStates;
    forall v, key ensures ShownAs(v, key) <==> SafeStringify(v) == key { ShownIs(v, key); }
    var _ := ModeStatesList(modes, caption, "");
    forall key | key in ModeStates(modes, caption)
      ensures exists k | 0 <= k < |modes| ::
                && modes[k].name.Some? && ShownAs(modes[k].value, key)
                && ModeStates(modes, caption)[key] == caption(modes[k].name.value)
                && forall j | k < j < |modes| && modes[j].name.Some? :: !ShownAs(modes[j].value, key)
    {
      var k := ModeStatesList(modes, caption, key);
      assert LastUnder(modes, key, k);
    }
  }

  /** The datapoints that are created: the mode's where modes are listed, then the level's where there is one. */
  lemma DefinitionsAre(cap: Capability, caption: string -> string)
    ensures var defs := WorkModeDefinitions(cap, caption);
            if cap.mode.None? && cap.level.None? && !cap.others then defs == [Definition("work_mode", None, None)]
            else
              var m := if cap.mode.None? || cap.mode.value.options == [] then 0 else 1;
              && m <= |defs|
              && (m == 1 ==>
                    && defs[0].id == "work_mode" && defs[0].number.None? && defs[0].states.Some?
                    && ListsModes(defs[0].states.value, cap.mode.value.options, caption))
              && if cap.level.None? then |defs| == m else LevelDefined(cap.level.value, caption, defs[m..])
  {
    hide Classify, ModeStates, ListsModes;
    ModesAreListed(cap.Modes(), caption);
    var defs, own := WorkModeDefinitions(cap, caption),
        if cap.level.Some? then LevelDefinition(cap.level.value, caption) else [];
    if !cap.Bare() { assert defs[if cap.Modes() == [] then 0 else 1..] == own; }
  }

  /** How a level is shown: as a number, under its key where the list has it, or not at all. */
  ghost predicate LevelShown(field: Field, caption: string -> string, level: int, x: Reading) {
    if field.options == [] then field.range.Some? && x == NumberReading("mode_value", level)
    else
      match Classify(field.options, caption)
      case NoLevels => false
      case Number(_, _) => x == NumberReading("mode_value", level)
      case Dropdown(states) => PrintInt(level) in states && x == TextReading("mode_value", PrintInt(level))
  }

  lemma {:induction false} KeptIff(readings: seq<Reading>, defs: seq<Definition>)
    ensures forall r :: r in Kept(readings, defs) <==> r in readings && Explained(r, defs)
  {
    hide Explained;
    if readings != [] { KeptIff(readings[1..], defs); }
  }

  /**
   * What a report of both halves shows: the mode, unless a list of modes lacks it, and the level, as its datapoint was
   * made; without a readable mode nothing.
   */
  lemma ReadingsAre(mode: Value, level: Value, cap: Capability, caption: string -> string, x: Reading)
    ensures x in MapCloudStateValues(Both(mode, level), Known(cap), caption) <==>
            exists m :: IsNumber(mode, m)
              && (|| (x == TextReading("work_mode", PrintInt(m))
                      && (cap.Modes() == [] || PrintInt(m) in ModeStates(cap.Modes(), caption)))
                  || (cap.level.Some? && exists l :: IsNumber(level, l) && LevelShown(cap.level.value, caption, l, x)))
  {
    hide Classify, ModeStates, PrintInt, CoerceNum, IsNumber, Explained;
    NumberIs(mode);
    NumberIs(level);
    var values, defs := CloudStateValuesOf(Both(mode, level), Known(cap), caption), WorkModeDefinitions(cap, caption);
    KeptIff(values, defs);
    if x in values { ExplainedIff(cap, x, caption); }
  }

  lemma ExplainedIff(cap: Capability, x: Reading, caption: string -> string)
    requires if x.id == "work_mode" then x.TextReading?
             else
               && x.id == "mode_value" && ModeLevelKind(cap.level, caption) != NoLevels
               && x.NumberReading? == ModeLevelKind(cap.level, caption).Number?
    ensures Explained(x, WorkModeDefinitions(cap, caption)) <==>
            if x.id == "work_mode" then cap.Modes() == [] || x.text in ModeStates(cap.Modes(), caption)
            else x.NumberReading? || x.text in ModeLevelKind(cap.level, caption).states
  {
    hide Classify, ModeStates, PrintInt;
    var defs, kind := WorkModeDefinitions(cap, caption), ModeLevelKind(cap.level, caption);
    if x.id == "work_mode" && cap.Modes() != [] {
      assert defs[0] == Definition("work_mode", Some(ModeStates(cap.Modes(), caption)), None);
    }
    if x.id == "mode_value" && kind.Dropdown? {
      assert defs[|defs| - 1] == Definition("mode_value", Some(kind.states), None);
    }
  }

  /**
   * Without the declared capabilities a level is taken for a list entry; where they lack the work mode, it is left out.
   */
  lemma ReadingsWithout(mode: int, level: int, caption: string -> string)
    ensures MapCloudStateValues(Both(Num(mode), Num(level)), NotGiven, caption)
            == [TextReading("work_mode", PrintInt(mode)), TextReading("mode_value", PrintInt(level))]
    ensures MapCloudStateValues(Both(Num(mode), Num(level)), Without, caption)
            == [TextReading("work_mode", PrintInt(mode))]
  {
    hide PrintInt;
  }
}
