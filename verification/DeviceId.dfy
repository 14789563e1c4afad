/** The id a device's tree lives under, and the registry that hands it out. */
module DeviceId {
  import opened Ascii
  import opened Options
  import Decimal
  import ObjectIds

  const ID_SCHEME := 3
  const RESERVED := "info"
  const ID_TAIL := 4
  const APP_GROUP_SKU := "BaseGroup"

  // ----- the text rules -----

  predicate Alnum(c: char) {
    'a' <= c <= 'z' || '0' <= c <= '9'
  }

  /** Only letters, digits and hyphens: no dot, no underscore. */
  predicate IdText(s: string) {
    forall i | 0 <= i < |s| :: Alnum(s[i]) || s[i] == '-'
  }

  /** Lower case, every run of anything else one hyphen. */
  function Slug(s: string, inRun: bool := false): (r: string)
    ensures IdText(r)
  {
    if s == [] then []
    else if Alnum(LowerChar(s[0])) then [LowerChar(s[0])] + Slug(s[1..], false)
    else if inRun then Slug(s[1..], true)
    else "-" + Slug(s[1..], true)
  }

  function TrimHyphens(s: string): (r: string)
    requires IdText(s)
    ensures IdText(r)
    ensures r != [] ==> r[0] != '-' && r[|r| - 1] != '-'
    decreases |s|
  {
    if s == [] then []
    else if s[0] == '-' then TrimHyphens(s[1..])
    else if s[|s| - 1] == '-' then TrimHyphens(s[..|s| - 1])
    else s
  }

  function ModelPart(sku: string): (r: string)
    ensures IdText(r) && r != []
  {
    var slug := TrimHyphens(Slug(sku));
    if slug != [] then slug else "device"
  }

  /** `normalizeDeviceId`: no colons, lower case. */
  function Normalized(deviceId: string): string {
    if deviceId == [] then []
    else if deviceId[0] == ':' then Normalized(deviceId[1..])
    else [LowerChar(deviceId[0])] + Normalized(deviceId[1..])
  }

  function KeepAlnum(s: string): (r: string)
    ensures IdText(r)
  {
    if s == [] then [] else if Alnum(s[0]) then [s[0]] + KeepAlnum(s[1..]) else KeepAlnum(s[1..])
  }

  function IdPiece(deviceId: string): (r: string)
    ensures IdText(r)
  {
    KeepAlnum(Normalized(deviceId))
  }

  /** The runtime key of a device. */
  function MapKey(sku: string, deviceId: string): string {
    sku + "_" + Normalized(deviceId)
  }

  function Folder(sku: string): string {
    if sku == APP_GROUP_SKU then "groups" else "devices"
  }

  // ----- the collision ladder -----

  predicate Free(id: string, taken: set<string>) {
    id !in taken && id != RESERVED
  }

  function Rung(base: string, n: nat): (id: string)
    ensures id != [] && (IdText(base) ==> IdText(id))
  {
    base + "-" + Decimal.Print(n)
  }

  lemma RungsDiffer(base: string, m: nat, n: nat)
    requires Rung(base, m) == Rung(base, n)
    ensures m == n
  {
    assert Rung(base, m)[|base| + 1..] == Decimal.Print(m);
    assert Rung(base, n)[|base| + 1..] == Decimal.Print(n);
    Decimal.PrintInjective(m, n);
  }

  /** The first rung from `n` on that is free; it exists although every id may be taken somewhere. */
  function FreeRung(base: string, n: nat, taken: set<string>): (k: nat)
    ensures k >= n && Free(Rung(base, k), taken)
    ensures forall i | n <= i < k :: !Free(Rung(base, i), taken)
  {
    assert forall i, j :: n <= i < j ==> Rung(base, i) != Rung(base, j) by {
      forall i, j: nat | n <= i < j && Rung(base, i) == Rung(base, j) ensures false {
        RungsDiffer(base, i, j);
      }
    }
    var name := (i: nat) => Rung(base, i);
    var k := Decimal.FirstFree(n, name, taken + {RESERVED});
    assert forall i | n <= i < k :: name(i) == Rung(base, i);
    k
  }

  function CountedId(base: string, taken: set<string>): (id: string)
    ensures Free(id, taken)
  {
    if Free(base, taken) then base else Rung(base, FreeRung(base, 2, taken))
  }

  /** The counter loop: it ends, on the first id of the ladder that is free. */
  method Counted(base: string, taken: set<string>) returns (id: string)
    ensures id == CountedId(base, taken)
  {
    id := base;
    var n := 2;
    while id in taken || id == RESERVED
      invariant n >= 2
      invariant n == 2 ==> id == base
      invariant n > 2 ==> !Free(base, taken) && id == Rung(base, n - 1)
      invariant n > 2 ==> FreeRung(base, 2, taken) >= n - 1
      decreases FreeRung(base, 2, taken) - n + 2
    {
      id := base + "-" + Decimal.Print(n);
      n := n + 1;
    }
    if n > 2 {
      assert FreeRung(base, 2, taken) == n - 1 by {
        assert Free(Rung(base, n - 1), taken);
      }
    }
  }

  function ShortId(sku: string, deviceId: string): (id: string)
    ensures IdText(id) && id != []
  {
    var piece := IdPiece(deviceId);
    ModelPart(sku) + "-" + (if |piece| <= ID_TAIL then piece else piece[|piece| - ID_TAIL..])
  }

  function LongId(sku: string, deviceId: string): (id: string)
    ensures IdText(id) && id != []
  {
    ModelPart(sku) + "-" + IdPiece(deviceId)
  }

  function DeviceIdFor(sku: string, deviceId: string, taken: set<string>): (id: string)
    ensures Free(id, taken)
    ensures IsCandidateId(sku, deviceId, id)
  {
    if IdPiece(deviceId) == [] then CountedId(ModelPart(sku), taken)
    else if Free(ShortId(sku, deviceId), taken) then ShortId(sku, deviceId)
    else CountedId(LongId(sku, deviceId), taken)
  }

  /** A choice stays the choice while only other ids get taken. */
  lemma ChoiceIsStable(sku: string, deviceId: string, few: set<string>, many: set<string>)
    requires few <= many && DeviceIdFor(sku, deviceId, few) !in many
    ensures DeviceIdFor(sku, deviceId, many) == DeviceIdFor(sku, deviceId, few)
  {
    CountIsStable(ModelPart(sku), few, many);
    CountIsStable(LongId(sku, deviceId), few, many);
  }

  lemma CountIsStable(base: string, few: set<string>, many: set<string>)
    requires few <= many
    ensures CountedId(base, few) !in many ==> CountedId(base, many) == CountedId(base, few)
  {
    hide Rung;
    var k, l := FreeRung(base, 2, few), FreeRung(base, 2, many);
    if Rung(base, k) !in many {
      assert Free(Rung(base, k), many) && Free(Rung(base, l), few);
      assert k == l;
    }
  }

  /** An id the rule can give this device under some set of taken ids; never the reserved one. */
  ghost predicate IsCandidateId(sku: string, deviceId: string, id: string) {
    var base := if IdPiece(deviceId) == [] then ModelPart(sku) else LongId(sku, deviceId);
    && id != RESERVED
    && ((IdPiece(deviceId) != [] && id == ShortId(sku, deviceId))
        || id == base
        || exists n: nat :: n >= 2 && id == Rung(base, n))
  }

  ghost predicate IsCandidate(sku: string, deviceId: string, prefix: string) {
    exists id :: IsCandidateId(sku, deviceId, id) && prefix == Folder(sku) + "." + id
  }

  /** Roots the rule never hands out: `groups.info` holds a state of the adapter's own. */
  const RESERVED_ROOTS := {"devices." + RESERVED, "groups." + RESERVED}

  /** Every id of this rule is a tree root without an underscore; the ids of 2.x all carried one. */
  lemma CandidateForm(sku: string, deviceId: string, prefix: string)
    requires IsCandidate(sku, deviceId, prefix)
    ensures ObjectIds.RootForm(prefix) && '_' !in prefix && prefix !in RESERVED_ROOTS
  {
    hide RESERVED_ROOTS;
    var id :| IsCandidateId(sku, deviceId, id) && prefix == Folder(sku) + "." + id;
    CandidateText(sku, deviceId, id);
    var folder := Folder(sku) + ".";
    assert folder == ObjectIds.FOLDERS[0] || folder == ObjectIds.FOLDERS[1];
    FolderAndIdText(folder, id);
    NotReserved(Folder(sku), id);
  }

  lemma NotReserved(folder: string, id: string)
    requires folder in {"devices", "groups"} && id != RESERVED
    ensures folder + "." + id !in RESERVED_ROOTS
  {
    var prefix, d, g := folder + "." + id, "devices." + RESERVED, "groups." + RESERVED;
    assert prefix[0] == folder[0] && prefix[|folder| + 1..] == id;
    assert d[0] == 'd' && d[8..] == RESERVED;
    assert g[0] == 'g' && g[7..] == RESERVED;
  }

  lemma CandidateText(sku: string, deviceId: string, id: string)
    requires IsCandidateId(sku, deviceId, id)
    ensures IdText(id) && id != []
  {
    var base := if IdPiece(deviceId) == [] then ModelPart(sku) else LongId(sku, deviceId);
    if id != base && !(IdPiece(deviceId) != [] && id == ShortId(sku, deviceId)) {
      var n: nat :| n >= 2 && id == Rung(base, n);
      assert IdText(base);
      var rung := Rung(base, n);
      assert IdText(rung) && rung != [];
    }
  }

  lemma FolderAndIdText(folder: string, id: string)
    requires folder in ObjectIds.FOLDERS && IdText(id) && id != []
    ensures ObjectIds.RootForm(folder + id) && '_' !in folder + id
  {
    assert (folder + id)[0] == folder[0];
    assert folder <= folder + id;
    assert (folder + id)[|folder|..] == id;
  }

  // ----- the registry -----

  datatype Entry = Entry(sku: string, deviceId: string, prefix: string) {
    function Key(): string {
      MapKey(sku, deviceId)
    }
  }

  /** The registry's content: two maps over the same entries, and the trees a failed move left behind. */
  datatype Registry = Registry(byKey: map<string, Entry>, byPrefix: map<string, Entry>, unmoved: set<string>) {

    /** The two maps are mutual inverses. */
    ghost predicate Inverse() {
      && (forall k | k in byKey ::
          byKey[k].Key() == k && byKey[k].prefix in byPrefix && byPrefix[byKey[k].prefix] == byKey[k])
      && (forall p | p in byPrefix ::
          byPrefix[p].prefix == p && byPrefix[p].Key() in byKey && byKey[byPrefix[p].Key()] == byPrefix[p])
    }

    function IdsIn(folder: string): set<string> {
      set p | p in byPrefix && folder + "." <= p :: p[|folder| + 1..]
    }

    function Seed(sku: string, deviceId: string, prefix: string): (Registry, bool) {
      var key := MapKey(sku, deviceId);
      if key in byKey || prefix in byPrefix then
        (this, key in byKey && byKey[key].prefix == prefix)
      else
        var entry := Entry(sku, deviceId, prefix);
        (this.(byKey := byKey[key := entry], byPrefix := byPrefix[prefix := entry]), true)
    }

    function PrefixFor(sku: string, deviceId: string): (Registry, string) {
      var key := MapKey(sku, deviceId);
      if key in byKey then (this, byKey[key].prefix)
      else
        var folder := Folder(sku);
        var prefix := folder + "." + DeviceIdFor(sku, deviceId, IdsIn(folder));
        (Seed(sku, deviceId, prefix).0, prefix)
    }

    function Release(prefix: string): Registry {
      if prefix in byPrefix then
        this.(byPrefix := byPrefix - {prefix}, byKey := byKey - {byPrefix[prefix].Key()})
      else this
    }

    function KeepUnmoved(sku: string, deviceId: string, prefix: string): Registry {
      var key := MapKey(sku, deviceId);
      var released := if key in byKey then Release(byKey[key].prefix) else this;
      var seeded := released.Seed(sku, deviceId, prefix).0;
      seeded.(unmoved := seeded.unmoved + {prefix})
    }
  }

  const EMPTY := Registry(map[], map[], {})

  /** A freshly computed id is free: no other device's tree, never the reserved id, and always recorded. */
  lemma FreshIdIsRecorded(r: Registry, sku: string, deviceId: string)
    requires r.Inverse()
    ensures var (after, prefix) := r.PrefixFor(sku, deviceId);
            && after.Inverse()
            && MapKey(sku, deviceId) in after.byKey && after.byKey[MapKey(sku, deviceId)].prefix == prefix
            && (MapKey(sku, deviceId) !in r.byKey ==>
                  && prefix !in r.byPrefix
                  && IsCandidate(sku, deviceId, prefix)
                  && prefix != Folder(sku) + "." + RESERVED
                  && after.byKey == r.byKey[MapKey(sku, deviceId) := Entry(sku, deviceId, prefix)])
            && (MapKey(sku, deviceId) in r.byKey ==> after == r)
  {
    var key := MapKey(sku, deviceId);
    if key !in r.byKey {
      var folder := Folder(sku);
      var id := DeviceIdFor(sku, deviceId, r.IdsIn(folder));
      var prefix := folder + "." + id;
      assert prefix[|folder| + 1..] == id;
      assert (folder + "." + RESERVED)[|folder| + 1..] == RESERVED;
      assert folder + "." <= prefix;
      assert prefix !in r.byPrefix;
      assert IsCandidateId(sku, deviceId, id);
    }
  }

  /** What can be asked of the registry. */
  datatype Op =
    | SeedOp(sku: string, deviceId: string, prefix: string)
    | AskOp(sku: string, deviceId: string)
    | KeepOp(sku: string, deviceId: string, prefix: string)
    | ReleaseOp(prefix: string)

  function Apply(r: Registry, op: Op): Registry {
    match op
    case SeedOp(s, d, p) => r.Seed(s, d, p).0
    case AskOp(s, d) => r.PrefixFor(s, d).0
    case KeepOp(s, d, p) => r.KeepUnmoved(s, d, p)
    case ReleaseOp(p) => r.Release(p)
  }

  function Run(r: Registry, ops: seq<Op>): Registry
    decreases ops
  {
    if ops == [] then r else Run(Apply(r, ops[0]), ops[1..])
  }

  lemma ReleaseKeepsInverse(r: Registry, prefix: string)
    requires r.Inverse()
    ensures r.Release(prefix).Inverse()
    ensures prefix !in r.Release(prefix).byPrefix
    ensures forall k | k in r.byKey && r.byKey[k].prefix != prefix ::
            k in r.Release(prefix).byKey && r.Release(prefix).byKey[k] == r.byKey[k]
    ensures forall k | k in r.byKey && r.byKey[k].prefix == prefix :: k !in r.Release(prefix).byKey
  {
  }

  lemma SeedKeepsInverse(r: Registry, sku: string, deviceId: string, prefix: string)
    requires r.Inverse()
    ensures r.Seed(sku, deviceId, prefix).0.Inverse()
    ensures forall k | k in r.byKey ::
            k in r.Seed(sku, deviceId, prefix).0.byKey && r.Seed(sku, deviceId, prefix).0.byKey[k] == r.byKey[k]
  {
    hide MapKey;
    var e, after := Entry(sku, deviceId, prefix), r.Seed(sku, deviceId, prefix).0;
    if e.Key() !in r.byKey && prefix !in r.byPrefix { EntryKeepsInverse(r, after, e); }
  }

  lemma EntryKeepsInverse(r: Registry, after: Registry, e: Entry)
    requires r.Inverse() && e.Key() !in r.byKey && e.prefix !in r.byPrefix
    requires after.byKey == r.byKey[e.Key() := e] && after.byPrefix == r.byPrefix[e.prefix := e]
    ensures after.Inverse()
  {
    hide MapKey, Entry.Key;
  }

  lemma KeepKeepsInverse(r: Registry, sku: string, deviceId: string, prefix: string)
    requires r.Inverse()
    ensures r.KeepUnmoved(sku, deviceId, prefix).Inverse()
    ensures forall k | k in r.byKey && k != MapKey(sku, deviceId) ::
              k in r.KeepUnmoved(sku, deviceId, prefix).byKey
                  && r.KeepUnmoved(sku, deviceId, prefix).byKey[k] == r.byKey[k]
  {
    var key := MapKey(sku, deviceId);
    if key in r.byKey {
      var released := r.Release(r.byKey[key].prefix);
      ReleaseKeepsInverse(r, r.byKey[key].prefix);
      SeedKeepsInverse(released, sku, deviceId, prefix);
    } else {
      SeedKeepsInverse(r, sku, deviceId, prefix);
    }
  }

  lemma StepKeepsInverse(r: Registry, op: Op)
    requires r.Inverse()
    ensures Apply(r, op).Inverse()
  {
    match op
    case SeedOp(s, d, p) => SeedKeepsInverse(r, s, d, p);
    case AskOp(s, d) => FreshIdIsRecorded(r, s, d);
    case KeepOp(s, d, p) => KeepKeepsInverse(r, s, d, p);
    case ReleaseOp(p) => ReleaseKeepsInverse(r, p);
  }

  /** Under every sequence of calls the two maps stay mutual inverses, so no two devices share a tree. */
  lemma {:induction false} NoTwoDevicesShareATree(r: Registry, ops: seq<Op>)
    requires r.Inverse()
    ensures Run(r, ops).Inverse()
    ensures forall k, l | k in Run(r, ops).byKey && l in Run(r, ops).byKey && k != l ::
              Run(r, ops).byKey[k].prefix != Run(r, ops).byKey[l].prefix
    decreases ops
  {
    if ops != [] {
      StepKeepsInverse(r, ops[0]);
      NoTwoDevicesShareATree(Apply(r, ops[0]), ops[1..]);
    }
  }

  /** Calls that do not give the tree of `key` away. */
  predicate Spares(op: Op, key: string, prefix: string) {
    match op
    case ReleaseOp(p) => p != prefix
    case KeepOp(s, d, _) => MapKey(s, d) != key
    case _ => true
  }

  /** Once assigned, a device's tree is the same for every later ask until it is released. */
  lemma {:induction false} AssignedTreeIsStable(r: Registry, ops: seq<Op>, sku: string, deviceId: string)
    requires r.Inverse() && MapKey(sku, deviceId) in r.byKey
    requires forall i | 0 <= i < |ops| :: Spares(ops[i], MapKey(sku, deviceId), r.byKey[MapKey(sku, deviceId)].prefix)
    ensures Run(r, ops).PrefixFor(sku, deviceId).1 == r.byKey[MapKey(sku, deviceId)].prefix
    decreases ops
  {
    if ops != [] {
      var key, next := MapKey(sku, deviceId), Apply(r, ops[0]);
      StepKeepsInverse(r, ops[0]);
      assert Spares(ops[0], key, r.byKey[key].prefix);
      match ops[0] {
        case SeedOp(s, d, p) => SeedKeepsInverse(r, s, d, p);
        case AskOp(s, d) => FreshIdIsRecorded(r, s, d);
        case KeepOp(s, d, p) => KeepKeepsInverse(r, s, d, p);
        case ReleaseOp(p) => ReleaseKeepsInverse(r, p);
      }
      assert key in next.byKey && next.byKey[key] == r.byKey[key];
      forall i | 0 <= i < |ops[1..]| ensures Spares(ops[1..][i], key, next.byKey[key].prefix) {
        assert ops[1..][i] == ops[i + 1];
      }
      AssignedTreeIsStable(next, ops[1..], sku, deviceId);
    }
  }

  /**
   * What a failed move leaves in the registry: the device is back on its old tree exactly when no other device holds
   * that tree, the target is free again, and every other device keeps what it had.
   */
  lemma FailedMoveFreesTheTarget(r: Registry, sku: string, deviceId: string, oldTree: string)
    requires r.Inverse() && MapKey(sku, deviceId) in r.byKey
    ensures var key := MapKey(sku, deviceId);
            var target, after := r.byKey[key].prefix, r.KeepUnmoved(sku, deviceId, oldTree);
            && (target != oldTree ==> target !in after.byPrefix)
            && ((key in after.byKey && after.byKey[key].prefix == oldTree) <==>
                (oldTree !in r.byPrefix || oldTree == target))
            && (forall k | k != key ::
                (k in after.byKey <==> k in r.byKey) && (k in r.byKey ==> after.byKey[k] == r.byKey[k]))
            && oldTree in after.unmoved
  {
    ReleaseKeepsInverse(r, r.byKey[MapKey(sku, deviceId)].prefix);
  }

  /**
   * The freed target goes to the next device that asks for it: a second device of the same model whose id ends in the
   * same four characters gets the very tree the failed move was writing to.
   */
  lemma FreedTargetIsHandedOn(r: Registry, sku: string, deviceId: string, oldTree: string, otherId: string)
    requires r.Inverse() && MapKey(sku, deviceId) in r.byKey
    requires r.byKey[MapKey(sku, deviceId)].prefix == Folder(sku) + "." + ShortId(sku, deviceId) != oldTree
    requires IdPiece(otherId) != [] && ShortId(sku, otherId) == ShortId(sku, deviceId) != RESERVED
    requires MapKey(sku, otherId) !in r.byKey && MapKey(sku, otherId) != MapKey(sku, deviceId)
    ensures r.KeepUnmoved(sku, deviceId, oldTree).PrefixFor(sku, otherId).1 == r.byKey[MapKey(sku, deviceId)].prefix
  {
    FailedMoveFreesTheTarget(r, sku, deviceId, oldTree);
    var after, folder := r.KeepUnmoved(sku, deviceId, oldTree), Folder(sku);
    var target := r.byKey[MapKey(sku, deviceId)].prefix;
    assert forall p | p in after.byPrefix && folder + "." <= p :: p == folder + "." + p[|folder| + 1..];
    assert Free(ShortId(sku, otherId), after.IdsIn(folder));
  }

  /** The registry as the adapter keeps it: every call changes the maps as the functions above say. */
  class DeviceIdRegistry {
    var byKey: map<string, Entry>
    var byPrefix: map<string, Entry>
    var unmoved: set<string>

    ghost function View(): Registry
      reads this
    {
      Registry(byKey, byPrefix, unmoved)
    }

    constructor ()
      ensures View() == EMPTY
    {
      byKey, byPrefix, unmoved := map[], map[], {};
    }

    method Seed(sku: string, deviceId: string, prefix: string) returns (recorded: bool)
      modifies this
      ensures (View(), recorded) == old(View()).Seed(sku, deviceId, prefix)
    {
      var key := MapKey(sku, deviceId);
      if key in byKey || prefix in byPrefix {
        return key in byKey && byKey[key].prefix == prefix;
      }
      var entry := Entry(sku, deviceId, prefix);
      byKey := byKey[key := entry];
      byPrefix := byPrefix[prefix := entry];
      recorded := true;
    }

    method IdsIn(folder: string) returns (ids: set<string>)
      ensures ids == View().IdsIn(folder)
    {
      ids := {};
      var rest := byPrefix.Keys;
      while rest != {}
        invariant rest <= byPrefix.Keys
        invariant ids == set p | p in byPrefix && p !in rest && folder + "." <= p :: p[|folder| + 1..]
        decreases rest
      {
        var prefix :| prefix in rest;
        if folder + "." <= prefix {
          ids := ids + {prefix[|folder| + 1..]};
        }
        rest := rest - {prefix};
      }
    }

    method PrefixFor(sku: string, deviceId: string) returns (prefix: string)
      modifies this
      ensures (View(), prefix) == old(View()).PrefixFor(sku, deviceId)
    {
      var key := MapKey(sku, deviceId);
      if key in byKey {
        return byKey[key].prefix;
      }
      var folder := Folder(sku);
      var taken := IdsIn(folder);
      prefix := folder + "." + DeviceIdFor(sku, deviceId, taken);
      var _ := Seed(sku, deviceId, prefix);
    }

    method Release(prefix: string)
      modifies this
      ensures View() == old(View()).Release(prefix)
    {
      if prefix in byPrefix {
        var entry := byPrefix[prefix];
        byPrefix := byPrefix - {prefix};
        byKey := byKey - {entry.Key()};
      }
    }

    method KeepUnmoved(sku: string, deviceId: string, prefix: string)
      modifies this
      ensures View() == old(View()).KeepUnmoved(sku, deviceId, prefix)
    {
      var key := MapKey(sku, deviceId);
      if key in byKey {
        Release(byKey[key].prefix);
      }
      var _ := Seed(sku, deviceId, prefix);
      unmoved := unmoved + {prefix};
    }
  }
}
