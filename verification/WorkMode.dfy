/** The work mode of an appliance: its two dropdowns as they are built, written and read back. */
module WorkMode {
  import opened Ascii
  import opened Decimal
  import opened Options

  /** A value of an option. A text carries the number it reads as; a composite one its serialised form. */
  datatype Value = Absent | Null | Num(n: int) | Text(s: string, number: Option<int>) | Composite(json: string)

  /** The ends of a range, as far as they read as numbers. */
  datatype Range = Range(min: Option<int>, max: Option<int>)

  /** An option, of a mode or of the levels of one. A list of levels that is no list is missing. */
  datatype Opt = Opt(
    name: Option<string>, value: Value, options: Option<seq<Opt>>, range: Option<Range>, defaultValue: Option<int>
  ) {
    predicate Group() {
      options.Some? && options.value != []
    }

    predicate HasRange() {
      range.Some? && range.value.min.Some? && range.value.max.Some?
    }
  }

  datatype Field = Field(options: seq<Opt>, range: Option<Range>)

  /** The declared capability: its `workMode` and its `modeValue` field, and whether it has any other. */
  datatype Capability = Capability(mode: Option<Field>, level: Option<Field>, others: bool) {
    predicate Bare() {
      mode.None? && level.None? && !others
    }

    function Modes(): seq<Opt> {
      if mode.Some? then mode.value.options else []
    }

    function Levels(): seq<Opt> {
      if level.Some? then level.value.options else []
    }
  }

  function SafeStringify(v: Value): string {
    match v
    case Absent => "undefined"
    case Null => "null"
    case Num(n) => PrintInt(n)
    case Text(s, _) => s
    case Composite(json) => json
  }

  function CoerceNum(v: Value): Option<int> {
    match v
    case Num(n) => Some(n)
    case Text(_, number) => number
    case _ => None
  }

  // ----- a written value against an option list -----

  /** A written datapoint value: its text and the number it reads as. */
  datatype Written = Nothing | Written(text: string, number: Option<int>)

  predicate HasValue(o: Opt, s: string) {
    o.value != Absent && o.value != Null && SafeStringify(o.value) == s
  }

  function ByValue(options: seq<Opt>, s: string): (k: nat)
    ensures k <= |options|
    ensures k < |options| ==> HasValue(options[k], s)
    ensures forall j | 0 <= j < k :: !HasValue(options[j], s)
  {
    if options == [] || HasValue(options[0], s) then 0 else 1 + ByValue(options[1..], s)
  }

  predicate ReadsAs(o: Opt, s: string) {
    o.name.Some? && Lower(o.name.value) == Lower(s)
  }

  function ByLabel(options: seq<Opt>, s: string): (k: nat)
    ensures k <= |options|
    ensures k < |options| ==> ReadsAs(options[k], s)
    ensures forall j | 0 <= j < k :: !ReadsAs(options[j], s)
  {
    if options == [] || ReadsAs(options[0], s) then 0 else 1 + ByLabel(options[1..], s)
  }

  function PickOption(options: seq<Opt>, raw: Written): Option<Opt> {
    if raw.Nothing? || Trim(raw.text) == "" then None
    else
      var s := Trim(raw.text);
      var k, l := ByValue(options, s), ByLabel(options, s);
      if k < |options| then Some(options[k]) else if l < |options| then Some(options[l]) else None
  }

  // ----- the shape of the level datapoint -----

  datatype Level = Level(group: string, value: int, name: Option<string>)

  datatype Shape = Dropdown(states: map<string, string>) | Number(min: int, max: int) | NoLevels

  function SubLevels(group: string, subs: seq<Opt>): seq<Level> {
    if subs == [] then []
    else
      var sub := subs[|subs| - 1];
      SubLevels(group, subs[..|subs| - 1]) +
      (if CoerceNum(sub.value).Some? then [Level(group, CoerceNum(sub.value).value, sub.name)] else [])
  }

  function LevelsOf(opt: Opt): seq<Level> {
    var group := if opt.name.Some? then opt.name.value else "";
    if opt.Group() then SubLevels(group, opt.options.value)
    else if opt.HasRange() || CoerceNum(opt.value).None? then []
    else [Level("", CoerceNum(opt.value).value, if group == "" then None else Some(group))]
  }

  function AllLevels(options: seq<Opt>): seq<Level> {
    if options == [] then [] else AllLevels(options[..|options| - 1]) + LevelsOf(options[|options| - 1])
  }

  function AllRanges(options: seq<Opt>): seq<Range> {
    if options == [] then []
    else
      var opt := options[|options| - 1];
      AllRanges(options[..|options| - 1]) + (if !opt.Group() && opt.HasRange() then [opt.range.value] else [])
  }

  predicate AllNamed(levels: seq<Level>) {
    forall i | 0 <= i < |levels| :: levels[i].name.Some?
  }

  /** Two groups share a level value. */
  predicate Clash(levels: seq<Level>) {
    exists i, j | 0 <= i < j < |levels| :: levels[i].value == levels[j].value && levels[i].group != levels[j].group
  }

  function StatesOf(levels: seq<Level>, caption: string -> string): map<string, string>
    requires AllNamed(levels)
  {
    if levels == [] then map[]
    else
      var l := levels[|levels| - 1];
      StatesOf(levels[..|levels| - 1], caption)[PrintInt(l.value) := caption(l.name.value)]
  }

  function Values(levels: seq<Level>): seq<int> {
    seq(|levels|, i requires 0 <= i < |levels| => levels[i].value)
  }

  function Ends(ranges: seq<Range>): seq<int>
    requires forall r | r in ranges :: r.min.Some? && r.max.Some?
  {
    seq(|ranges|, i requires 0 <= i < |ranges| => ranges[i].min.value)
    + seq(|ranges|, i requires 0 <= i < |ranges| => ranges[i].max.value)
  }

  function Least(s: seq<int>): (m: int)
    requires s != []
    ensures m in s && forall x | x in s :: m <= x
  {
    if |s| == 1 then s[0]
    else
      var m := Least(s[..|s| - 1]);
      assert forall x | x in s :: x in s[..|s| - 1] || x == s[|s| - 1];
      if s[|s| - 1] < m then s[|s| - 1] else m
  }

  function Greatest(s: seq<int>): (m: int)
    requires s != []
    ensures m in s && forall x | x in s :: x <= m
  {
    if |s| == 1 then s[0]
    else
      var m := Greatest(s[..|s| - 1]);
      assert forall x | x in s :: x in s[..|s| - 1] || x == s[|s| - 1];
      if s[|s| - 1] > m then s[|s| - 1] else m
  }

  lemma {:induction false} RangesHaveEnds(options: seq<Opt>)
    ensures forall r | r in AllRanges(options) :: r.min.Some? && r.max.Some?
  {
    if options != [] { RangesHaveEnds(options[..|options| - 1]); }
  }

  function Classify(options: seq<Opt>, caption: string -> string): Shape {
    var levels, ranges := AllLevels(options), AllRanges(options);
    RangesHaveEnds(options);
    if levels == [] && ranges == [] then NoLevels
    else if AllNamed(levels) && !Clash(levels) && ranges == [] then Dropdown(StatesOf(levels, caption))
    else
      var all := Values(levels) + Ends(ranges);
      assert levels != [] ==> Values(levels)[0] in all;
      assert ranges != [] ==> Ends(ranges)[0] in all;
      Number(Least(all), Greatest(all))
  }

  method ClassifyModeLevels(options: seq<Opt>, caption: string -> string) returns (shape: Shape)
    ensures shape == Classify(options, caption)
  {
    hide Clash, Least, Greatest, StatesOf, SubLevels, AllNamed;
    var levels: seq<Level>, ranges: seq<Range> := [], [];
    for i := 0 to |options|
      invariant levels == AllLevels(options[..i]) && ranges == AllRanges(options[..i])
    {
      assert options[..i + 1][..i] == options[..i];
      var opt := options[i];
      var group := if opt.name.Some? then opt.name.value else "";
      if opt.Group() {
        var own := CollectLevels(group, opt.options.value);
        levels := levels + own;
      } else if opt.HasRange() {
        ranges := ranges + [opt.range.value];
      } else if CoerceNum(opt.value).Some? {
        levels := levels + [Level("", CoerceNum(opt.value).value, if group == "" then None else Some(group))];
      }
    }
    assert options[..|options|] == options;
    RangesHaveEnds(options);
    if levels == [] && ranges == [] { return NoLevels; }
    var collision := FindCollision(levels);
    if AllNamed(levels) && !collision && ranges == [] {
      var states := CollectStates(levels, caption);
      return Dropdown(states);
    }
    var all := Values(levels) + Ends(ranges);
    assert levels != [] ==> Values(levels)[0] in all;
    assert ranges != [] ==> Ends(ranges)[0] in all;
    return Number(Least(all), Greatest(all));
  }

  method CollectLevels(group: string, subs: seq<Opt>) returns (levels: seq<Level>)
    ensures levels == SubLevels(group, subs)
  {
    levels := [];
    for i := 0 to |subs|
      invariant levels == SubLevels(group, subs[..i])
    {
      assert subs[..i + 1][..i] == subs[..i];
      var n := CoerceNum(subs[i].value);
      if n.Some? { levels := levels + [Level(group, n.value, subs[i].name)]; }
    }
    assert subs[..|subs|] == subs;
  }

  method CollectStates(levels: seq<Level>, caption: string -> string) returns (states: map<string, string>)
    requires AllNamed(levels)
    ensures states == StatesOf(levels, caption)
  {
    hide PrintInt;
    states := map[];
    for i := 0 to |levels|
      invariant states == StatesOf(levels[..i], caption)
    {
      assert levels[..i + 1][..i] == levels[..i];
      states := states[PrintInt(levels[i].value) := caption(levels[i].name.value)];
    }
    assert levels[..|levels|] == levels;
  }

  /** The owner of each value so far; the search stops at the first one of another group. */
  method FindCollision(levels: seq<Level>) returns (collision: bool)
    ensures collision == Clash(levels)
  {
    var owners: map<int, string> := map[];
    for i := 0 to |levels|
      invariant forall j | 0 <= j < i :: levels[j].value in owners && owners[levels[j].value] == levels[j].group
      invariant forall n | n in owners :: exists j | 0 <= j < i :: levels[j].value == n
    {
      var l := levels[i];
      if l.value in owners && owners[l.value] != l.group {
        var j :| 0 <= j < i && levels[j].value == l.value;
        return true;
      }
      owners := owners[l.value := l.group];
    }
    return false;
  }

  // ----- the definitions built -----

  /** A datapoint to create: with a value list, as a number with its range, or as plain text. */
  datatype Definition = Definition(id: string, states: Option<map<string, string>>, number: Option<Range>)

  function ModeStates(modes: seq<Opt>, caption: string -> string): map<string, string> {
    if modes == [] then map[]
    else
      var opt, before := modes[|modes| - 1], ModeStates(modes[..|modes| - 1], caption);
      if opt.name.Some? then before[SafeStringify(opt.value) := caption(opt.name.value)] else before
  }

  function LevelDefinition(field: Field, caption: string -> string): seq<Definition> {
    if field.options != [] then
      match Classify(field.options, caption)
      case Dropdown(states) => [Definition("mode_value", Some(states), None)]
      case Number(min, max) => [Definition("mode_value", None, Some(Range(Some(min), Some(max))))]
      case NoLevels => []
    else if field.range.Some? then [Definition("mode_value", None, field.range)]
    else []
  }

  function WorkModeDefinitions(cap: Capability, caption: string -> string): seq<Definition> {
    if cap.Bare() then [Definition("work_mode", None, None)]
    else
      (if cap.Modes() != [] then [Definition("work_mode", Some(ModeStates(cap.Modes(), caption)), None)] else [])
      + (if cap.level.Some? then LevelDefinition(cap.level.value, caption) else [])
  }

  method MapWorkMode(cap: Capability, caption: string -> string) returns (defs: seq<Definition>)
    ensures defs == WorkModeDefinitions(cap, caption)
  {
    if cap.Bare() { return [Definition("work_mode", None, None)]; }
    defs := [];
    var modes := cap.Modes();
    if modes != [] {
      var states := map[];
      for i := 0 to |modes|
        invariant states == ModeStates(modes[..i], caption)
      {
        assert modes[..i + 1][..i] == modes[..i];
        if modes[i].name.Some? { states := states[SafeStringify(modes[i].value) := caption(modes[i].name.value)]; }
      }
      assert modes[..|modes|] == modes;
      defs := [Definition("work_mode", Some(states), None)];
    }
    if cap.level.Some? {
      var field := cap.level.value;
      if field.options != [] {
        var shape := ClassifyModeLevels(field.options, caption);
        match shape
        case Dropdown(states) => defs := defs + [Definition("mode_value", Some(states), None)];
        case Number(min, max) => defs := defs + [Definition("mode_value", None, Some(Range(Some(min), Some(max))))];
        case NoLevels =>
      } else if field.range.Some? {
        defs := defs + [Definition("mode_value", None, field.range)];
      }
    }
  }

  // ----- the send path -----

  datatype Changed = ModeChanged | LevelChanged

  datatype Struct = Struct(workMode: int, modeValue: int)

  /** The first option with this name, both possibly missing. */
  function ByName(options: seq<Opt>, name: Option<string>): (k: nat)
    ensures k <= |options|
    ensures k < |options| ==> options[k].name == name
    ensures forall j | 0 <= j < k :: options[j].name != name
  {
    if options == [] || options[0].name == name then 0 else 1 + ByName(options[1..], name)
  }

  predicate Owns(o: Opt, key: Written) {
    o.Group() && PickOption(o.options.value, key).Some?
  }

  /** The first group with a level the value picks. */
  function Owner(options: seq<Opt>, key: Written): nat {
    if options == [] || Owns(options[0], key) then 0 else 1 + Owner(options[1..], key)
  }

  lemma {:induction false} OwnerIsFirst(options: seq<Opt>, key: Written)
    ensures var k := Owner(options, key);
            && k <= |options|
            && (k < |options| ==> Owns(options[k], key))
            && (forall j | 0 <= j < k :: !Owns(options[j], key))
  {
    hide Owns;
    if options != [] && !Owns(options[0], key) {
      OwnerIsFirst(options[1..], key);
      assert forall j | 0 < j < |options| :: options[j] == options[1..][j - 1];
    }
  }

  function FlatLevels(options: seq<Opt>): seq<Opt> {
    if options == [] then []
    else
      (if options[0].options.None? && options[0].value != Absent && options[0].value != Null then [options[0]] else [])
      + FlatLevels(options[1..])
  }

  function At(options: seq<Opt>, k: nat): Option<Opt> {
    if k < |options| then Some(options[k]) else None
  }

  /** The mode of a command: the owner of a written level, else the mode the other datapoint shows. */
  function ChosenMode(cap: Capability, mode: Written, level: Written, changed: Changed,
      caption: string -> string): Option<Opt> {
    var owner := Owner(cap.Levels(), level);
    var owning :=
      if changed.LevelChanged? && owner < |cap.Levels()| && Classify(cap.Levels(), caption).Dropdown?
      then At(cap.Modes(), ByName(cap.Modes(), cap.Levels()[owner].name))
      else None;
    if owning.Some? then owning else PickOption(cap.Modes(), mode)
  }

  /** The levels of a mode: those of the group of its name, else the ones outside groups. */
  function OwnLevels(cap: Capability, modeOpt: Opt): seq<Opt> {
    var entry := At(cap.Levels(), ByName(cap.Levels(), modeOpt.name));
    if entry.Some? && entry.value.Group() then entry.value.options.value else FlatLevels(cap.Levels())
  }

  /** The level the other datapoint shows, if it is one of them, else the first. */
  function OwnLevel(own: seq<Opt>, level: Written): Opt
    requires own != []
  {
    var chosen := PickOption(own, level);
    if chosen.Some? then chosen.value else own[0]
  }

  function LevelFor(cap: Capability, modeOpt: Opt, level: Written): Option<int> {
    var entry := At(cap.Levels(), ByName(cap.Levels(), modeOpt.name));
    var own := OwnLevels(cap, modeOpt);
    if own != [] then CoerceNum(OwnLevel(own, level).value)
    else if entry.Some? && entry.value.HasRange() then
      var min, max := entry.value.range.value.min.value, entry.value.range.value.max.value;
      if level.Nothing? || level.number.None? then Some(min)
      else
        var raised := if level.number.value < min then min else level.number.value;
        Some(if raised > max then max else raised)
    else Some(if entry.Some? && entry.value.defaultValue.Some? then entry.value.defaultValue.value else 0)
  }

  function ResolveWorkModeStruct(
      cap: Capability, mode: Written, level: Written, changed: Changed, caption: string -> string): Option<Struct>
  {
    var modeOpt := ChosenMode(cap, mode, level, changed, caption);
    if modeOpt.None? || CoerceNum(modeOpt.value.value).None? then None
    else
      var modeValue := LevelFor(cap, modeOpt.value, level);
      if modeValue.None? then None else Some(Struct(CoerceNum(modeOpt.value.value).value, modeValue.value))
  }

  // ----- the read path -----

  /** What the state response says: both halves, or a single value. */
  datatype Reported = Both(workMode: Value, modeValue: Value) | Single(value: Value)

  /** The declared capabilities, if the caller has them, and whether they hold the work mode. */
  datatype Declared = NotGiven | Without | Known(cap: Capability)

  datatype Reading = TextReading(id: string, text: string) | NumberReading(id: string, n: int) {
    function Printed(): string {
      if TextReading? then text else PrintInt(n)
    }
  }

  function ModeLevelKind(field: Option<Field>, caption: string -> string): Shape {
    if field.Some? && field.value.options != [] then Classify(field.value.options, caption)
    else if field.Some? && field.value.range.Some? then Number(0, 0)
    else NoLevels
  }

  function CloudStateValuesOf(reported: Reported, declared: Declared, caption: string -> string): seq<Reading> {
    var mode := CoerceNum(if reported.Both? then reported.workMode else reported.value);
    if mode.None? then []
    else
      var primary := TextReading("work_mode", PrintInt(mode.value));
      if reported.Single? || CoerceNum(reported.modeValue).None? then [primary]
      else
        var level := CoerceNum(reported.modeValue).value;
        match declared
        case NotGiven => [primary, TextReading("mode_value", PrintInt(level))]
        case Without => [primary]
        case Known(cap) =>
          match ModeLevelKind(cap.level, caption)
          case NoLevels => [primary]
          case Number(_, _) => [primary, NumberReading("mode_value", level)]
          case Dropdown(_) => [primary, TextReading("mode_value", PrintInt(level))]
  }

  /** A reading with a built value list must be in it. */
  predicate Explained(reading: Reading, defs: seq<Definition>) {
    forall i | 0 <= i < |defs| && defs[i].id == reading.id && defs[i].states.Some? ::
        reading.Printed() in defs[i].states.value
  }

  function Kept(readings: seq<Reading>, defs: seq<Definition>): seq<Reading> {
    if readings == [] then []
    else (if Explained(readings[0], defs) then [readings[0]] else []) + Kept(readings[1..], defs)
  }

  function MapCloudStateValues(reported: Reported, declared: Declared, caption: string -> string): seq<Reading> {
    var values := CloudStateValuesOf(reported, declared, caption);
    if declared.Known? then Kept(values, WorkModeDefinitions(declared.cap, caption)) else values
  }

  // ----- agreement -----

  /** The keys offered are the printed level values. */
  lemma {:induction false} StatesKeys(levels: seq<Level>, caption: string -> string)
    requires AllNamed(levels)
    ensures forall key ::
            key in StatesOf(levels, caption) <==> exists i | 0 <= i < |levels| :: PrintInt(levels[i].value) == key
  {
    hide PrintInt;
    if levels != [] {
      var n := |levels| - 1;
      StatesKeys(levels[..n], caption);
      assert forall i | 0 <= i < n :: levels[..n][i] == levels[i];
      assert PrintInt(levels[n].value) in StatesOf(levels, caption);
    }
  }

  lemma {:induction false} ModeKeys(modes: seq<Opt>, caption: string -> string)
    ensures forall o | o in modes && o.name.Some? :: SafeStringify(o.value) in ModeStates(modes, caption)
    ensures forall key | key in ModeStates(modes, caption) ::
            exists o :: o in modes && o.name.Some? && SafeStringify(o.value) == key
  {
    hide SafeStringify;
    if modes != [] {
      var n := |modes| - 1;
      ModeKeys(modes[..n], caption);
      assert forall o | o in modes :: o in modes[..n] || o == modes[n];
      forall key | key in ModeStates(modes, caption) ensures exists o ::
          o in modes && o.name.Some? && SafeStringify(o.value) == key {
        if key in ModeStates(modes[..n], caption) {
          var o :| o in modes[..n] && o.name.Some? && SafeStringify(o.value) == key;
          assert o in modes;
        } else {
          assert modes[n] in modes;
        }
      }
    }
  }

  /** A level comes from a sub-option of a group or from an option that is no group. */
  ghost predicate From(l: Level, o: Opt) {
    if o.Group() then exists sub :: sub in o.options.value && CoerceNum(sub.value) == Some(l.value)
    else CoerceNum(o.value) == Some(l.value)
  }

  lemma {:induction false} SubLevelsFrom(group: string, subs: seq<Opt>)
    ensures forall l | l in SubLevels(group, subs) :: exists sub :: sub in subs && CoerceNum(sub.value) == Some(l.value)
    ensures forall sub | sub in subs && CoerceNum(sub.value).Some? ::
              exists l :: l in SubLevels(group, subs) && l.value == CoerceNum(sub.value).value
  {
    hide CoerceNum;
    if subs != [] {
      var n := |subs| - 1;
      SubLevelsFrom(group, subs[..n]);
      forall l | l in SubLevels(group, subs) ensures exists sub ::
          sub in subs && CoerceNum(sub.value) == Some(l.value) {
        if l in SubLevels(group, subs[..n]) {
          var sub :| sub in subs[..n] && CoerceNum(sub.value) == Some(l.value);
          assert sub in subs;
        } else {
          assert subs[n] in subs;
        }
      }
      forall sub | sub in subs && CoerceNum(sub.value).Some?
        ensures exists l :: l in SubLevels(group, subs) && l.value == CoerceNum(sub.value).value
      {
        if sub in subs[..n] {
          var l :| l in SubLevels(group, subs[..n]) && l.value == CoerceNum(sub.value).value;
          assert l in SubLevels(group, subs);
        } else {
          assert Level(group, CoerceNum(sub.value).value, sub.name) in SubLevels(group, subs);
        }
      }
    }
  }

  lemma {:induction false} LevelsComeFrom(options: seq<Opt>)
    ensures forall l | l in AllLevels(options) :: exists o :: o in options && From(l, o)
  {
    hide CoerceNum, SubLevels;
    if options != [] {
      var n := |options| - 1;
      LevelsComeFrom(options[..n]);
      var last := options[n];
      if last.Group() { SubLevelsFrom(if last.name.Some? then last.name.value else "", last.options.value); }
      forall l | l in AllLevels(options) ensures exists o :: o in options && From(l, o) {
        if l in AllLevels(options[..n]) {
          var o :| o in options[..n] && From(l, o);
          assert o in options;
        } else {
          assert last in options && From(l, last);
        }
      }
    }
  }

  lemma {:induction false} LevelsAreAll(options: seq<Opt>, o: Opt, sub: Opt)
    requires o in options && o.Group() && sub in o.options.value && CoerceNum(sub.value).Some?
    ensures exists l :: l in AllLevels(options) && l.value == CoerceNum(sub.value).value
  {
    hide LevelsOf;
    var n := |options| - 1;
    if o in options[..n] {
      LevelsAreAll(options[..n], o, sub);
      var l :| l in AllLevels(options[..n]) && l.value == CoerceNum(sub.value).value;
      assert l in AllLevels(options);
    } else {
      assert o == options[n];
      var l := GroupLevel(o, sub);
      assert l in AllLevels(options);
    }
  }

  lemma GroupLevel(o: Opt, sub: Opt) returns (l: Level)
    requires o.Group() && sub in o.options.value && CoerceNum(sub.value).Some?
    ensures l in LevelsOf(o) && l.value == CoerceNum(sub.value).value
  {
    var group := if o.name.Some? then o.name.value else "";
    SubLevelsFrom(group, o.options.value);
    l :| l in SubLevels(group, o.options.value) && l.value == CoerceNum(sub.value).value;
  }

  /** The dropdown offers every level of every group. */
  lemma EveryLevelIsOffered(options: seq<Opt>, o: Opt, sub: Opt, caption: string -> string)
    requires Classify(options, caption).Dropdown? && o in options && o.Group() && sub in o.options.value
             && CoerceNum(sub.value).Some?
    ensures PrintInt(CoerceNum(sub.value).value) in Classify(options, caption).states
  {
    hide PrintInt, AllLevels, Clash, Least, Greatest, CoerceNum;
    LevelsAreAll(options, o, sub);
    StatesKeys(AllLevels(options), caption);
  }

  /** What a level list grouped by modes looks like: named groups of numbers, no level outside a group. */
  ghost predicate Grouped(levels: seq<Opt>) {
    && (forall o | o in levels ::
        if o.Group() then o.name.Some? && Numbers(o.options.value) else CoerceNum(o.value).None?)
    && (forall i, j | 0 <= i < j < |levels| && levels[j].Group() :: levels[i].name != levels[j].name)
  }

  ghost predicate Numbers(options: seq<Opt>) {
    forall o | o in options :: o.value.Num?
  }

  /** Every group is a mode of its own name. */
  ghost predicate GroupsAreModes(cap: Capability) {
    && Numbers(cap.Modes())
    && (forall o | o in cap.Levels() && o.Group() :: exists mode :: mode in cap.Modes() && mode.name == o.name)
  }

  /** No level is named like the key of another one. */
  ghost predicate NoNameReadsAsKey(levels: seq<Opt>) {
    forall o, sub, l | o in levels && o.Group() && sub in o.options.value && l in AllLevels(levels)
        && ReadsAs(sub, PrintInt(l.value)) ::
      sub.value == Num(l.value)
  }

  /** Picking a level key in a group finds the level itself or nothing. */
  lemma PickIsOwn(levels: seq<Opt>, o: Opt, l: Level, raw: Written)
    requires Grouped(levels) && NoNameReadsAsKey(levels) && o in levels && o.Group() && l in AllLevels(levels)
    requires raw.Written? && Trim(raw.text) == PrintInt(l.value)
    ensures PickOption(o.options.value, raw).Some? ==>
              PickOption(o.options.value, raw).value in o.options.value
              && PickOption(o.options.value, raw).value.value == Num(l.value)
    ensures (exists sub :: sub in o.options.value && sub.value == Num(l.value)) ==>
            PickOption(o.options.value, raw).Some?
  {
    hide Trim, Lower, PrintInt;
    var subs, s := o.options.value, PrintInt(l.value);
    var k := ByValue(subs, s);
    if k < |subs| {
      assert subs[k].value.Num?;
      PrintIntInjective(subs[k].value.n, l.value);
    }
  }

  lemma OfferedKeyIsALevel(levels: seq<Opt>, caption: string -> string, key: string) returns (l: Level, i: nat)
    requires Grouped(levels) && Classify(levels, caption).Dropdown? && key in Classify(levels, caption).states
    ensures l in AllLevels(levels) && PrintInt(l.value) == key
    ensures i < |levels| && levels[i].Group() && exists sub ::
            sub in levels[i].options.value && sub.value == Num(l.value)
  {
    hide PrintInt, AllLevels, Clash, Least, Greatest;
    var all := AllLevels(levels);
    StatesKeys(all, caption);
    var n :| 0 <= n < |all| && PrintInt(all[n].value) == key;
    l := all[n];
    LevelsComeFrom(levels);
    assert l in all;
    var o :| o in levels && From(l, o);
    i :| 0 <= i < |levels| && levels[i] == o;
    var sub :| sub in o.options.value && CoerceNum(sub.value) == Some(l.value);
  }

  /** The command for an offered level key names the mode that owns the level, whatever the mode datapoint shows. */
  lemma WrittenLevelFindsItsMode(cap: Capability, mode: Written, raw: Written, caption: string -> string)
      returns (s: Struct, i: nat, j: nat)
    requires Classify(cap.Levels(), caption).Dropdown? && raw.Written?
             && Trim(raw.text) in Classify(cap.Levels(), caption).states
    requires Grouped(cap.Levels()) && GroupsAreModes(cap) && NoNameReadsAsKey(cap.Levels())
    ensures ResolveWorkModeStruct(cap, mode, raw, LevelChanged, caption) == Some(s)
    ensures PrintInt(s.modeValue) == Trim(raw.text)
    ensures i < |cap.Levels()| && cap.Levels()[i].Group() && exists sub ::
            sub in cap.Levels()[i].options.value && sub.value == Num(s.modeValue)
    ensures j < |cap.Modes()| && cap.Modes()[j].name == cap.Levels()[i].name && cap.Modes()[j].value == Num(s.workMode)
  {
    hide Trim, PrintInt, Classify, PickOption, NoNameReadsAsKey, AllLevels;
    var levels, modes := cap.Levels(), cap.Modes();
    var l, home := OfferedKeyIsALevel(levels, caption, Trim(raw.text));
    PickIsOwn(levels, levels[home], l, raw);
    assert Owns(levels[home], raw);
    OwnerIsFirst(levels, raw);
    i := Owner(levels, raw);
    PickIsOwn(levels, levels[i], l, raw);
    j := ByName(modes, levels[i].name);
    assert ByName(levels, levels[i].name) == i;
    assert modes[j] in modes;
    s := Struct(modes[j].value.n, l.value);
  }

  /** Reading back a command: what the check keeps of its halves. */
  lemma KeptTwo(first: Reading, second: Reading, defs: seq<Definition>)
    requires Explained(first, defs)
    ensures Kept([first], defs) == [first]
    ensures Kept([first, second], defs) == if Explained(second, defs) then [first, second] else [first]
  {
    assert [first, second][1..] == [second] && [first][1..] == [] && [second][1..] == [];
  }

  /** Writing an offered level and reading the command back shows exactly the owner's mode key and the level's key. */
  lemma LevelRoundTrip(cap: Capability, mode: Written, raw: Written, caption: string -> string)
    requires Classify(cap.Levels(), caption).Dropdown? && raw.Written?
             && Trim(raw.text) in Classify(cap.Levels(), caption).states
    requires Grouped(cap.Levels()) && GroupsAreModes(cap) && NoNameReadsAsKey(cap.Levels())
    ensures var s := ResolveWorkModeStruct(cap, mode, raw, LevelChanged, caption);
            && s.Some?
            && PrintInt(s.value.workMode) in ModeStates(cap.Modes(), caption)
            && MapCloudStateValues(Both(Num(s.value.workMode), Num(s.value.modeValue)), Known(cap), caption)
               == [TextReading("work_mode", PrintInt(s.value.workMode)), TextReading("mode_value", Trim(raw.text))]
  {
    hide Trim, PrintInt, Classify, ResolveWorkModeStruct, NoNameReadsAsKey, ModeStates;
    var s, i, j := WrittenLevelFindsItsMode(cap, mode, raw, caption);
    ModeKeys(cap.Modes(), caption);
    assert cap.Modes()[j] in cap.Modes() && cap.Levels()[i] in cap.Levels();
    assert SafeStringify(cap.Modes()[j].value) in ModeStates(cap.Modes(), caption);
    var defs := WorkModeDefinitions(cap, caption);
    var work, level := TextReading("work_mode", PrintInt(s.workMode)), TextReading("mode_value", Trim(raw.text));
    assert Explained(work, defs) && Explained(level, defs);
    KeptTwo(work, level, defs);
  }

  /** A written mode key names the first mode with that value, and the command takes that mode. */
  lemma WrittenModeIsItself(cap: Capability, raw: Written, level: Written, caption: string -> string) returns (k: nat)
    requires Numbers(cap.Modes()) && raw.Written? && Trim(raw.text) in ModeStates(cap.Modes(), caption)
    ensures k < |cap.Modes()| && SafeStringify(cap.Modes()[k].value) == Trim(raw.text)
    ensures forall j | 0 <= j < k :: SafeStringify(cap.Modes()[j].value) != Trim(raw.text)
    ensures ResolveWorkModeStruct(cap, raw, level, ModeChanged, caption) ==
            match LevelFor(cap, cap.Modes()[k], level)
            case None => None
            case Some(n) => Some(Struct(cap.Modes()[k].value.n, n))
  {
    hide Trim, PrintInt, Classify, LevelFor, ModeStates, Owner;
    var modes := cap.Modes();
    ModeKeys(modes, caption);
    var o :| o in modes && o.name.Some? && SafeStringify(o.value) == Trim(raw.text);
    PrintsSomething(o.value.n);
    k := ByValue(modes, Trim(raw.text));
    assert o.value.Num? && HasValue(o, Trim(raw.text));
    assert k < |modes| && modes[k] in modes;
    assert forall j | 0 <= j < k :: modes[j] in modes;
  }

  /** What a level reads back as: a number where levels are one, its key where the dropdown offers it, else nothing. */
  function LevelReading(cap: Capability, level: int, caption: string -> string): seq<Reading> {
    match ModeLevelKind(cap.level, caption)
    case NoLevels => []
    case Number(_, _) => [NumberReading("mode_value", level)]
    case Dropdown(states) => if PrintInt(level) in states then [TextReading("mode_value", PrintInt(level))] else []
  }

  lemma ReadingsOf(cap: Capability, mode: int, level: int, caption: string -> string)
    requires PrintInt(mode) in ModeStates(cap.Modes(), caption)
    ensures MapCloudStateValues(Both(Num(mode), Num(level)), Known(cap), caption)
            == [TextReading("work_mode", PrintInt(mode))] + LevelReading(cap, level, caption)
  {
    hide PrintInt, Classify, ModeStates, Kept, Explained, WorkModeDefinitions;
    var work, text, number := TextReading("work_mode", PrintInt(mode)), TextReading("mode_value", PrintInt(level)),
        NumberReading("mode_value", level);
    var defs := WorkModeDefinitions(cap, caption);
    WorkIsExplained(cap, work, caption);
    NumberIsExplained(cap, number, caption);
    ExplainedLevel(cap, text, caption);
    KeptTwo(work, text, defs);
    KeptTwo(work, number, defs);
    assert [work] + [text] == [work, text] && [work] + [number] == [work, number] && [work] + [] == [work];
  }

  lemma WorkIsExplained(cap: Capability, work: Reading, caption: string -> string)
    requires work.TextReading? && work.id == "work_mode" && work.text in ModeStates(cap.Modes(), caption)
    ensures Explained(work, WorkModeDefinitions(cap, caption))
  {
    hide Classify, ModeStates;
  }

  lemma NumberIsExplained(cap: Capability, number: Reading, caption: string -> string)
    requires number.NumberReading? && number.id == "mode_value"
    ensures ModeLevelKind(cap.level, caption).Number? ==> Explained(number, WorkModeDefinitions(cap, caption))
  {
    hide Classify, ModeStates;
  }

  /** A text is explained exactly when the dropdown offers it. */
  lemma ExplainedLevel(cap: Capability, reading: Reading, caption: string -> string)
    requires reading.TextReading? && reading.id == "mode_value"
    ensures var kind := ModeLevelKind(cap.level, caption);
            kind.Dropdown? ==> (Explained(reading, WorkModeDefinitions(cap, caption)) <==> reading.text in kind.states)
  {
    hide Classify, ModeStates;
    var kind, defs := ModeLevelKind(cap.level, caption), WorkModeDefinitions(cap, caption);
    if kind.Dropdown? { assert defs[|defs| - 1] == Definition("mode_value", Some(kind.states), None); }
  }

  /**
   * Writing an offered mode key: a command exists exactly when the mode lists no levels, or the one it takes reads as a
   * number; read back it shows that key, and the level it took as far as the level datapoint can show it.
   */
  lemma ModeRoundTrip(cap: Capability, raw: Written, level: Written, caption: string -> string) returns (k: nat)
    requires Numbers(cap.Modes()) && raw.Written? && Trim(raw.text) in ModeStates(cap.Modes(), caption)
    ensures k < |cap.Modes()| && SafeStringify(cap.Modes()[k].value) == Trim(raw.text)
    ensures var s, own := ResolveWorkModeStruct(cap, raw, level, ModeChanged, caption), OwnLevels(cap, cap.Modes()[k]);
            && (s.Some? <==> own == [] || CoerceNum(OwnLevel(own, level).value).Some?)
            && (s.Some? && own != [] ==> CoerceNum(OwnLevel(own, level).value) == Some(s.value.modeValue))
            && (s.Some? ==>
                  MapCloudStateValues(Both(Num(s.value.workMode), Num(s.value.modeValue)), Known(cap), caption)
                  == [TextReading("work_mode", Trim(raw.text))] + LevelReading(cap, s.value.modeValue, caption))
  {
    hide Trim, PrintInt, Classify, ModeStates, OwnLevels, OwnLevel, MapCloudStateValues, LevelReading;
    hide ResolveWorkModeStruct;
    k := WrittenModeIsItself(cap, raw, level, caption);
    assert cap.Modes()[k] in cap.Modes();
    var s := ResolveWorkModeStruct(cap, raw, level, ModeChanged, caption);
    if s.Some? { ReadingsOf(cap, s.value.workMode, s.value.modeValue, caption); }
  }

  /**
   * A mode with a group of its own always gets a command, for a level of that group, and both halves read back: the
   * level the other datapoint shows if it is one of the group, else the group's first.
   */
  lemma ModeTakesItsOwnLevel(cap: Capability, raw: Written, level: Written, caption: string -> string, g: nat)
    requires Numbers(cap.Modes()) && raw.Written? && Trim(raw.text) in ModeStates(cap.Modes(), caption)
    requires Classify(cap.Levels(), caption).Dropdown? && Grouped(cap.Levels()) && g < |cap.Levels()|
             && cap.Levels()[g].Group()
    requires forall o | o in cap.Modes() && SafeStringify(o.value) == Trim(raw.text) :: o.name == cap.Levels()[g].name
    ensures var s, own := ResolveWorkModeStruct(cap, raw, level, ModeChanged, caption), cap.Levels()[g].options.value;
            && s.Some? && OwnLevel(own, level) in own && OwnLevel(own, level).value == Num(s.value.modeValue)
            && MapCloudStateValues(Both(Num(s.value.workMode), Num(s.value.modeValue)), Known(cap), caption)
               == [TextReading("work_mode", Trim(raw.text)), TextReading("mode_value", PrintInt(s.value.modeValue))]
  {
    hide Trim, PrintInt, Classify, ModeStates, OwnLevel, MapCloudStateValues, ResolveWorkModeStruct, SafeStringify;
    var k := ModeRoundTrip(cap, raw, level, caption);
    assert cap.Modes()[k] in cap.Modes();
    GroupByName(cap.Levels(), g);
    var own := cap.Levels()[g].options.value;
    OwnLevelIsOne(own, level);
    assert cap.Levels()[g] in cap.Levels();
    var sub := OwnLevel(own, level);
    EveryLevelIsOffered(cap.Levels(), cap.Levels()[g], sub, caption);
    assert cap.level.Some? && cap.level.value.options == cap.Levels();
  }

  lemma GroupByName(levels: seq<Opt>, g: nat)
    requires Grouped(levels) && g < |levels| && levels[g].Group()
    ensures ByName(levels, levels[g].name) == g
  {
  }

  lemma OwnLevelIsOne(own: seq<Opt>, level: Written)
    requires own != []
    ensures OwnLevel(own, level) in own
  {
    hide Trim, HasValue, ReadsAs;
  }

  lemma PrintsSomething(n: int)
    ensures PrintInt(n) != ""
  {
  }

  /** Every reading kept lands in a datapoint of its own shape, with a value the datapoint's list explains. */
  lemma ReadingsFitDefinitions(reported: Reported, cap: Capability, caption: string -> string)
    ensures forall r | r in MapCloudStateValues(reported, Known(cap), caption) ::
              && Explained(r, WorkModeDefinitions(cap, caption))
              && (r.id == "mode_value" ==> exists d ::
                  d in WorkModeDefinitions(cap, caption) && d.id == r.id && d.number.Some? == r.NumberReading?)
  {
    hide Classify, PrintInt, ModeStates;
    var defs, values := WorkModeDefinitions(cap, caption), CloudStateValuesOf(reported, Known(cap), caption);
    KeptAreExplained(values, defs);
    forall r | r in values && r.id == "mode_value" ensures exists d ::
        d in defs && d.id == r.id && d.number.Some? == r.NumberReading? {
      assert cap.level.Some?;
      var own := LevelDefinition(cap.level.value, caption);
      assert own != [] && own[0].id == r.id && own[0].number.Some? == r.NumberReading?;
      assert own[0] in defs;
    }
  }

  lemma {:induction false} KeptAreExplained(readings: seq<Reading>, defs: seq<Definition>)
    ensures forall r | r in Kept(readings, defs) :: r in readings && Explained(r, defs)
  {
    if readings != [] { KeptAreExplained(readings[1..], defs); }
  }
}
