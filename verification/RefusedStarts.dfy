/**
 * Whole starts in which writes are refused, or at whose writes the process dies, in any mix: as long as no two devices
 * want the same root, every device stands whole below one of its two roots at every write of every start.
 */
module RefusedStarts {
  import opened Options
  import opened ObjectIds
  import opened DeviceMove
  import opened MoveInvariant
  import opened MigrationRun
  import opened RefusedWrites
  import R = DeviceRoots
  import DeviceId

  // ----- what every store has -----

  ghost predicate DeviceSafe(orig: Db, rank: Rank, db: Db, f: string, t: string) {
    Versions(orig, db, f, t) && R.Good(rank(f) < rank(t), At(orig, db, f, f), At(orig, db, f, t))
  }

  /** A store that starts of `orig` can leave behind, whatever was refused. */
  ghost predicate Safe(orig: Db, rank: Rank, db: Db) {
    var moves := Destinations(orig.objects);
    && WellFormed(orig) && MovesOk(orig, moves)
    && RestInv(orig, db, moves) && AliasesHold(orig, db, moves)
    && forall f | f in moves :: DeviceSafe(orig, rank, db, f, moves[f])
  }

  /** The object `id` lives on below `home` with its value; its recordings go on under the id they began with. */
  ghost predicate LivesOn(orig: Db, db: Db, id: Id, home: string)
    requires id in orig.objects && id.Below?
  {
    var n := Retree(id, home);
    && n in db.objects
    && ValueAt(db, n) == ValueAt(orig, id)
    && db.objects[n].kind == orig.objects[id].kind && db.objects[n].body == orig.objects[id].body
    && db.objects[n].sku == orig.objects[id].sku && db.objects[n].deviceId == orig.objects[id].deviceId
    && (((home == id.root || orig.objects[id].kind != State) && db.objects[n].custom == orig.objects[id].custom)
        || (orig.objects[id].kind == State
            && SettingsCarried(orig.objects[id].custom, db.objects[n].custom, Print(id))))
  }

  /** The whole device of `f` stands below `home`. */
  ghost predicate StandsBelow(orig: Db, db: Db, f: string, home: string) {
    forall id | id in orig.objects && InTree(id, f) :: LivesOn(orig, db, id, home)
  }

  /** Every device stands whole below its old root or its new one, the aliases follow, and nothing else changed. */
  ghost predicate Kept(orig: Db, db: Db) {
    var moves := Destinations(orig.objects);
    && (forall f | IsTree(orig.objects, f) :: StandsBelow(orig, db, f, f) || StandsBelow(orig, db, f, Home(moves, f)))
    && AliasesFollow(orig, db, moves)
    && RestInv(orig, db, moves)
  }

  lemma WholeStands(orig: Db, db: Db, f: string, t: string, r: string)
    requires IsTree(orig.objects, f) && Root(f) !in orig.states && Versions(orig, db, f, t) && r in {f, t}
             && Whole(orig, db, f, r)
    ensures StandsBelow(orig, db, f, r)
  {
    forall id | id in orig.objects && InTree(id, f) ensures LivesOn(orig, db, id, r) {
      var n := Retree(id, r);
      assert Retree(n, f) == id && (InTree(n, f) || InTree(n, t));
      assert IsVersion(orig.objects[id], db.objects[n], id, n.root == f);
      assert n in db.states ==> db.states[n] == orig.states[id];
      assert ValueAt(db, n) == ValueAt(orig, id);
    }
  }

  lemma RestStands(orig: Db, db: Db, moves: map<string, string>, f: string)
    requires WellFormed(orig) && MovesOk(orig, moves) && RestInv(orig, db, moves) && IsTree(orig.objects, f)
             && f !in moves
    ensures StandsBelow(orig, db, f, f)
  {
    OriginalIsNoTarget(orig, moves, f);
    forall id | id in orig.objects && InTree(id, f) ensures LivesOn(orig, db, id, f) {
      assert !Concerned(id, moves) && Retree(id, f) == id;
    }
  }

  lemma AliasesKept(orig: Db, db: Db, moves: map<string, string>)
    requires MovesOk(orig, moves) && AliasesHold(orig, db, moves)
    ensures AliasesFollow(orig, db, moves)
  {
    forall a, place | a in orig.aliases && 0 <= place < 3
      ensures db.aliases[a].body == orig.aliases[a].body
      ensures EndHolds(orig, db, moves, End(orig.aliases[a].target, place), End(db.aliases[a].target, place))
    {
      assert AliasHolds(orig, db, moves, orig.aliases[a], db.aliases[a]);
    }
    assert forall a | a in orig.aliases :: db.aliases[a].body == orig.aliases[a].body by {
      forall a | a in orig.aliases ensures db.aliases[a].body == orig.aliases[a].body {
        assert AliasHolds(orig, db, moves, orig.aliases[a], db.aliases[a]);
      }
    }
  }

  lemma SafeIsKept(orig: Db, rank: Rank, db: Db)
    requires Safe(orig, rank, db)
    ensures Kept(orig, db)
  {
    var moves := Destinations(orig.objects);
    AliasesKept(orig, db, moves);
    forall f | IsTree(orig.objects, f)
      ensures StandsBelow(orig, db, f, f) || StandsBelow(orig, db, f, Home(moves, f))
    {
      hide Destinations, MovesOk, RestInv, AliasesHold, StandsBelow, Whole, Versions;
      if f in moves {
        var t := moves[f];
        assert DeviceSafe(orig, rank, db, f, t);
        if R.WholeThere(At(orig, db, f, f)) { WholeStands(orig, db, f, t, f); } else { WholeStands(orig, db, f, t, t); }
      } else {
        RestStands(orig, db, moves, f);
      }
    }
  }

  lemma OrigDevice(orig: Db, rank: Rank, f: string, t: string)
    requires IsTree(orig.objects, f) && !Marked(orig.objects, f) && orig.objects[Root(f)].movingTo == None
    requires f != t && NothingIn(orig, t)
    ensures DeviceSafe(orig, rank, orig, f, t)
  {
    assert InTree(Root(t), t);
    assert forall id | InTree(id, f) :: Retree(id, f) == id;
  }

  lemma OrigAliases(orig: Db, moves: map<string, string>)
    ensures AliasesHold(orig, orig, moves) && RestInv(orig, orig, moves)
  {
    forall a | a in orig.aliases ensures AliasHolds(orig, orig, moves, orig.aliases[a], orig.aliases[a]) {
      forall place | 0 <= place < 3
        ensures EndHolds(orig, orig, moves, End(orig.aliases[a].target, place), End(orig.aliases[a].target, place))
      {
      }
    }
  }

  lemma OrigIsSafe(orig: Db, rank: Rank)
    requires WellFormed(orig) && Apart(orig.objects)
    ensures Safe(orig, rank, orig)
  {
    DestinationsOk(orig);
    var moves := Destinations(orig.objects);
    OrigAliases(orig, moves);
    hide RestInv, AliasesHold, TargetsFree, Destinations, Apart;
    forall f | f in moves ensures DeviceSafe(orig, rank, orig, f, moves[f]) {
      OtherRoots(orig, moves, f);
      OrigDevice(orig, rank, f, moves[f]);
    }
  }

  // ----- the registry -----

  /** One of the two roots of the device of `f`. */
  predicate IsRootOf(moves: map<string, string>, f: string, r: string) {
    r == f || r == Home(moves, f)
  }

  /** The registry knows devices of the original store only, each under one of its own roots. */
  ghost predicate OwnRoots(orig: Db, moves: map<string, string>, reg: DeviceId.Registry) {
    && reg.Inverse()
    && forall k | k in reg.byKey :: exists f :: Owns(orig, f, k) && IsRootOf(moves, f, reg.byKey[k].prefix)
  }

  /** And it knows all that were marked from the beginning. */
  ghost predicate RegistrySafe(orig: Db, moves: map<string, string>, reg: DeviceId.Registry) {
    && OwnRoots(orig, moves, reg)
    && forall f | IsTree(orig.objects, f) && Marked(orig.objects, f) :: KeyOf(orig.objects, f) in reg.byKey
  }

  lemma RootsDiffer(orig: Db, moves: map<string, string>, f: string, g: string, r: string)
    requires MovesOk(orig, moves) && IsTree(orig.objects, f) && IsTree(orig.objects, g)
    requires IsRootOf(moves, f, r) && IsRootOf(moves, g, r)
    ensures f == g
  {
    OriginalIsNoTarget(orig, moves, f);
    OriginalIsNoTarget(orig, moves, g);
    assert f in moves ==> moves[f] in Targets(moves);
    assert g in moves ==> moves[g] in Targets(moves);
  }

  /** The root a device is recorded under is one of its own. */
  lemma RecordedRoot(orig: Db, moves: map<string, string>, reg: DeviceId.Registry, f: string)
    requires WellFormed(orig) && OwnRoots(orig, moves, reg) && IsTree(orig.objects, f)
             && KeyOf(orig.objects, f) in reg.byKey
    ensures IsRootOf(moves, f, reg.byKey[KeyOf(orig.objects, f)].prefix)
  {
    var g :| Owns(orig, g, KeyOf(orig.objects, f)) && IsRootOf(moves, g, reg.byKey[KeyOf(orig.objects, f)].prefix);
  }

  /** A root of a device is held by that device or by none. */
  lemma HeldRoot(orig: Db, moves: map<string, string>, reg: DeviceId.Registry, f: string, r: string)
    requires WellFormed(orig) && MovesOk(orig, moves) && OwnRoots(orig, moves, reg)
    requires IsTree(orig.objects, f) && IsRootOf(moves, f, r) && r in reg.byPrefix
    ensures reg.byPrefix[r].Key() == KeyOf(orig.objects, f)
    ensures KeyOf(orig.objects, f) in reg.byKey && reg.byKey[KeyOf(orig.objects, f)].prefix == r
  {
    var k := reg.byPrefix[r].Key();
    var g :| Owns(orig, g, k) && IsRootOf(moves, g, reg.byKey[k].prefix);
    RootsDiffer(orig, moves, f, g, r);
  }

  /** Which root the registry holds for a device: none, the old one, the new one. */
  function ToldOf(orig: Db, reg: DeviceId.Registry, f: string, t: string): Option<bool>
    requires IsTree(orig.objects, f)
  {
    var key := KeyOf(orig.objects, f);
    if key in reg.byKey then Some(reg.byKey[key].prefix == t) else None
  }

  /** A registry that changed for the device of `f` only. */
  ghost predicate OthersTold(orig: Db, reg: DeviceId.Registry, after: DeviceId.Registry, f: string)
    requires IsTree(orig.objects, f)
  {
    forall k | k != KeyOf(orig.objects, f) ::
        (k in after.byKey <==> k in reg.byKey) && (k in reg.byKey ==> after.byKey[k] == reg.byKey[k])
  }

  /** A device the registry does not know is told its destination: what the others hold is never in the way. */
  lemma FreshIsDestination(orig: Db, moves: map<string, string>, reg: DeviceId.Registry, f: string)
    requires WellFormed(orig) && moves == Destinations(orig.objects) && MovesOk(orig, moves)
             && RegistrySafe(orig, moves, reg)
    requires IsTree(orig.objects, f) && KeyOf(orig.objects, f) !in reg.byKey
    ensures Unmoved(orig.objects, f)
    ensures var (sku, deviceId) := DeviceOf(orig.objects, f);
            reg.PrefixFor(sku, deviceId).1 == Destination(orig.objects, f) == Home(moves, f)
  {
    var (sku, deviceId) := DeviceOf(orig.objects, f);
    var folder, t := DeviceId.Folder(sku), Destination(orig.objects, f);
    var few, many := HeldIds(orig.objects, folder), reg.IdsIn(folder);
    var id := DeviceId.DeviceIdFor(sku, deviceId, few);
    DestinationIsHome(orig, moves, f);
    HeldAreTaken(orig, moves, reg, folder);
    if t in reg.byPrefix { HeldRoot(orig, moves, reg, f, t); }
    IdIsTaken(reg, folder, id);
    DeviceId.ChoiceIsStable(sku, deviceId, few, many);
    hide WellFormed, MovesOk, RegistrySafe, Destinations, DeviceId.Registry.IdsIn, HeldIds, DeviceId.DeviceIdFor;
  }

  lemma DestinationIsHome(orig: Db, moves: map<string, string>, f: string)
    requires IsTree(orig.objects, f) && moves == Destinations(orig.objects)
    ensures !Marked(orig.objects, f) ==> Destination(orig.objects, f) == Home(moves, f)
  {
    assert f in Roots(orig.objects) by { assert Root(f) in orig.objects; }
  }

  lemma IdIsTaken(reg: DeviceId.Registry, folder: string, id: string)
    ensures id in reg.IdsIn(folder) <==> folder + "." + id in reg.byPrefix
  {
    assert (folder + "." + id)[|folder| + 1..] == id && folder + "." <= folder + "." + id;
    forall p | p in reg.byPrefix && folder + "." <= p && p[|folder| + 1..] == id ensures p == folder + "." + id {
      assert p == p[..|folder| + 1] + p[|folder| + 1..];
    }
  }

  lemma HeldAreTaken(orig: Db, moves: map<string, string>, reg: DeviceId.Registry, folder: string)
    requires WellFormed(orig) && moves == Destinations(orig.objects) && RegistrySafe(orig, moves, reg)
    ensures HeldIds(orig.objects, folder) <= reg.IdsIn(folder)
  {
    forall id | id in HeldIds(orig.objects, folder) ensures id in reg.IdsIn(folder) {
      var r :| r in Roots(orig.objects) && Marked(orig.objects, r) && folder + "." <= r && r[|folder| + 1..] == id;
      RecordedRoot(orig, moves, reg, r);
      assert r !in moves;
    }
  }

  /** What the registry answers for a device, and what it knows then. */
  lemma AskKeeps(orig: Db, moves: map<string, string>, reg: DeviceId.Registry, f: string)
    requires WellFormed(orig) && moves == Destinations(orig.objects) && MovesOk(orig, moves)
             && RegistrySafe(orig, moves, reg)
    requires IsTree(orig.objects, f)
    ensures var (sku, deviceId) := DeviceOf(orig.objects, f);
            var (after, target) := reg.PrefixFor(sku, deviceId);
            && RegistrySafe(orig, moves, after) && OthersTold(orig, reg, after, f)
            && KeyOf(orig.objects, f) in after.byKey && after.byKey[KeyOf(orig.objects, f)].prefix == target
            && IsRootOf(moves, f, target)
            && target == if KeyOf(orig.objects, f) in reg.byKey then reg.byKey[KeyOf(orig.objects, f)].prefix
               else Home(moves, f)
  {
    var (sku, deviceId) := DeviceOf(orig.objects, f);
    DeviceId.FreshIdIsRecorded(reg, sku, deviceId);
    if KeyOf(orig.objects, f) in reg.byKey {
      RecordedRoot(orig, moves, reg, f);
    } else {
      FreshIsDestination(orig, moves, reg, f);
      hide DeviceId.Registry.PrefixFor, DeviceId.IsCandidate, Destinations, WellFormed, MovesOk;
      hide DeviceId.Registry.Inverse;
      EntryKeeps(orig, moves, reg, reg.PrefixFor(sku, deviceId).0, f, DeviceId.Entry(sku, deviceId, Home(moves, f)));
    }
  }

  /** A changed entry of one device, under a root of its own. */
  lemma OneEntryChanged(orig: Db, moves: map<string, string>, reg: DeviceId.Registry, after: DeviceId.Registry,
      f: string)
    requires OwnRoots(orig, moves, reg) && after.Inverse() && IsTree(orig.objects, f) && OthersTold(orig, reg, after, f)
    requires KeyOf(orig.objects, f) in after.byKey && IsRootOf(moves, f, after.byKey[KeyOf(orig.objects, f)].prefix)
    ensures OwnRoots(orig, moves, after) && (RegistrySafe(orig, moves, reg) ==> RegistrySafe(orig, moves, after))
  {
    hide DeviceId.Registry.Inverse;
    forall k | k in after.byKey ensures exists g :: Owns(orig, g, k) && IsRootOf(moves, g, after.byKey[k].prefix) {
      if k == KeyOf(orig.objects, f) {
        assert Owns(orig, f, k);
      } else {
        var g :| Owns(orig, g, k) && IsRootOf(moves, g, reg.byKey[k].prefix);
      }
    }
  }

  /** One more entry, for one more device. */
  lemma EntryKeeps(orig: Db, moves: map<string, string>, reg: DeviceId.Registry, after: DeviceId.Registry, f: string,
      e: DeviceId.Entry)
    requires OwnRoots(orig, moves, reg) && after.Inverse() && IsTree(orig.objects, f) && IsRootOf(moves, f, e.prefix)
    requires after.byKey == reg.byKey[KeyOf(orig.objects, f) := e]
    ensures OwnRoots(orig, moves, after) && OthersTold(orig, reg, after, f)
    ensures RegistrySafe(orig, moves, reg) ==> RegistrySafe(orig, moves, after)
  {
    hide DeviceId.Registry.Inverse, OwnRoots, RegistrySafe;
    OneEntryChanged(orig, moves, reg, after, f);
  }

  /** A refused tree holds its own root for the rest of the start, and no other device notices. */
  lemma KeepKeeps(orig: Db, moves: map<string, string>, reg: DeviceId.Registry, f: string, r: string)
    requires WellFormed(orig) && MovesOk(orig, moves) && RegistrySafe(orig, moves, reg)
    requires IsTree(orig.objects, f) && IsRootOf(moves, f, r) && KeyOf(orig.objects, f) in reg.byKey
    ensures var (sku, deviceId) := DeviceOf(orig.objects, f);
            var after := reg.KeepUnmoved(sku, deviceId, r);
            && RegistrySafe(orig, moves, after) && OthersTold(orig, reg, after, f)
            && KeyOf(orig.objects, f) in after.byKey && after.byKey[KeyOf(orig.objects, f)].prefix == r
  {
    hide DeviceId.Registry.KeepUnmoved;
    var (sku, deviceId) := DeviceOf(orig.objects, f);
    DeviceId.FailedMoveFreesTheTarget(reg, sku, deviceId, r);
    DeviceId.KeepKeepsInverse(reg, sku, deviceId, r);
    if r in reg.byPrefix { HeldRoot(orig, moves, reg, f, r); }
    hide WellFormed, MovesOk, DeviceId.Registry.Inverse;
    OneEntryChanged(orig, moves, reg, reg.KeepUnmoved(sku, deviceId, r), f);
  }

  // ----- the trees a start finds -----

  /** Every tree of a safe store is a root of one device of the original store. */
  lemma OwnerIn(orig: Db, rank: Rank, db: Db, r: string) returns (f: string)
    requires Safe(orig, rank, db) && IsTree(db.objects, r)
    ensures IsTree(orig.objects, f) && IsRootOf(Destinations(orig.objects), f, r)
    ensures DeviceOf(db.objects, r) == DeviceOf(orig.objects, f) && KeyOf(db.objects, r) == KeyOf(orig.objects, f)
    ensures var moves := Destinations(orig.objects);
            JournalOf(db.objects[Root(r)]).Some? ==>
              f in moves && JournalOf(db.objects[Root(r)]) == Some(if r == f then moves[f] else f)
  {
    var moves := Destinations(orig.objects);
    hide Destinations, AliasesHold, TargetsFree;
    if g :| g in moves && (r == g || r == moves[g]) {
      f := g;
      assert DeviceSafe(orig, rank, db, f, moves[f]);
      assert InTree(Root(r), f) || InTree(Root(r), moves[f]);
      assert Retree(Root(r), f) == Root(f);
    } else {
      f := r;
      assert !Concerned(Root(r), moves);
    }
  }

  /** And what stands at a root of a device is its tree; only a device that moves can be without its old root. */
  lemma StandsAsTree(orig: Db, rank: Rank, db: Db, f: string, r: string)
    requires Safe(orig, rank, db) && IsTree(orig.objects, f) && IsRootOf(Destinations(orig.objects), f, r)
    ensures Root(r) in db.objects ==> IsTree(db.objects, r)
    ensures f !in Destinations(orig.objects) ==> Root(f) in db.objects
  {
    var moves := Destinations(orig.objects);
    hide Destinations, AliasesHold, TargetsFree;
    if f in moves {
      assert DeviceSafe(orig, rank, db, f, moves[f]);
      if Root(r) in db.objects {
        assert InTree(Root(r), f) || InTree(Root(r), moves[f]);
        assert Retree(Root(r), f) == Root(f);
      }
    } else {
      OriginalIsNoTarget(orig, moves, f);
      assert !Concerned(Root(f), moves);
    }
  }

  // ----- the seeding -----

  /** After the marked trees: every device with one is recorded under one, and exactly these are complete. */
  ghost predicate MarkedRecorded(objects: map<Id, Object>, listed: seq<string>, reg: DeviceId.Registry,
      complete: set<string>)
    requires AreTrees(objects, listed)
  {
    && reg.Inverse() && complete == reg.byPrefix.Keys
    && (forall p | p in reg.byPrefix :: p in listed && Final(objects, p) && reg.byPrefix[p].Key() == KeyOf(objects, p))
    && (forall i | 0 <= i < |listed| && Final(objects, listed[i]) :: KeyOf(objects, listed[i]) in reg.byKey)
  }

  lemma {:induction false} MarkedSeedsRecord(objects: map<Id, Object>, listed: seq<string>)
    requires AreTrees(objects, listed)
    ensures MarkedRecorded(objects, listed, MarkedSeeds(objects, listed).0, MarkedSeeds(objects, listed).1)
  {
    if listed != [] {
      var n := |listed| - 1;
      MarkedSeedsRecord(objects, listed[..n]);
      var (reg, complete) := MarkedSeeds(objects, listed[..n]);
      MarkedSeedsStep(objects, listed, reg, complete);
    }
  }

  lemma MarkedSeedsStep(objects: map<Id, Object>, listed: seq<string>, reg: DeviceId.Registry, complete: set<string>)
    requires listed != [] && AreTrees(objects, listed)
    requires MarkedRecorded(objects, listed[..|listed| - 1], reg, complete)
    ensures var r := listed[|listed| - 1];
            var (sku, deviceId) := DeviceOf(objects, r);
            var (after, recorded) := reg.Seed(sku, deviceId, r);
            if Final(objects, r) then
                MarkedRecorded(objects, listed, after, if recorded then complete + {r} else complete)
            else MarkedRecorded(objects, listed, reg, complete)
  {
    hide KeyOf, Final, MarkedRecorded, DeviceId.Registry.Seed;
    var r := listed[|listed| - 1];
    var (sku, deviceId) := DeviceOf(objects, r);
    KeyIs(objects, r);
    if !Final(objects, r) {
      MoreListed(objects, listed, reg, complete);
    } else if KeyOf(objects, r) in reg.byKey || r in reg.byPrefix {
      SeedIsOld(reg, sku, deviceId, r);
      HeldIsListed(objects, listed, reg, complete);
      MoreListed(objects, listed, reg, complete);
      if reg.Seed(sku, deviceId, r).1 { assert complete + {r} == complete; }
    } else {
      SeedIsNew(reg, sku, deviceId, r);
      assert reg.Inverse() by { HeldIsListed(objects, listed, reg, complete); }
      DeviceId.SeedKeepsInverse(reg, sku, deviceId, r);
      NewIsRecorded(objects, listed, reg, complete, reg.Seed(sku, deviceId, r).0, DeviceId.Entry(sku, deviceId, r));
    }
  }

  lemma MoreListed(objects: map<Id, Object>, listed: seq<string>, reg: DeviceId.Registry, complete: set<string>)
    requires listed != [] && AreTrees(objects, listed) && MarkedRecorded(objects, listed[..|listed| - 1], reg, complete)
    requires var r := listed[|listed| - 1]; Final(objects, r) ==> KeyOf(objects, r) in reg.byKey
    ensures MarkedRecorded(objects, listed, reg, complete)
  {
    hide KeyOf, Final, DeviceId.Registry.Inverse;
    var n := |listed| - 1;
    assert forall p | p in listed[..n] :: p in listed;
    assert forall i | 0 <= i < n :: listed[..n][i] == listed[i];
  }

  lemma HeldIsListed(objects: map<Id, Object>, listed: seq<string>, reg: DeviceId.Registry, complete: set<string>)
    requires listed != [] && AreTrees(objects, listed) && MarkedRecorded(objects, listed[..|listed| - 1], reg, complete)
    ensures reg.Inverse()
    ensures var r := listed[|listed| - 1]; r in reg.byPrefix ==> KeyOf(objects, r) in reg.byKey && r in complete
    ensures forall k | k in reg.byKey :: reg.byKey[k].prefix in complete
  {
    hide KeyOf, Final;
  }

  lemma NewIsRecorded(objects: map<Id, Object>, listed: seq<string>, reg: DeviceId.Registry, complete: set<string>,
                      after: DeviceId.Registry, e: DeviceId.Entry)
    requires listed != [] && AreTrees(objects, listed) && MarkedRecorded(objects, listed[..|listed| - 1], reg, complete)
    requires var r := listed[|listed| - 1]; Final(objects, r) && e.prefix == r && e.Key() == KeyOf(objects, r)
    requires after.Inverse() && after.byKey == reg.byKey[e.Key() := e] && after.byPrefix == reg.byPrefix[e.prefix := e]
    ensures MarkedRecorded(objects, listed, after, complete + {e.prefix})
  {
    hide KeyOf, Final, DeviceId.Registry.Inverse, DeviceId.Entry.Key;
    var n := |listed| - 1;
    assert forall p | p in listed[..n] :: p in listed;
    assert forall i | 0 <= i < n :: listed[..n][i] == listed[i];
  }

  lemma SeedIsOld(reg: DeviceId.Registry, sku: string, deviceId: string, prefix: string)
    requires DeviceId.MapKey(sku, deviceId) in reg.byKey || prefix in reg.byPrefix
    ensures var (after, recorded) := reg.Seed(sku, deviceId, prefix);
            after == reg && (recorded ==>
                DeviceId.MapKey(sku, deviceId) in reg.byKey
                    && reg.byKey[DeviceId.MapKey(sku, deviceId)].prefix == prefix)
  {
  }

  lemma KeyIs(objects: map<Id, Object>, r: string)
    requires IsTree(objects, r)
    ensures KeyOf(objects, r) == DeviceId.MapKey(DeviceOf(objects, r).0, DeviceOf(objects, r).1)
  {
  }

  lemma SeedIsNew(reg: DeviceId.Registry, sku: string, deviceId: string, prefix: string)
    requires DeviceId.MapKey(sku, deviceId) !in reg.byKey && prefix !in reg.byPrefix
    ensures var e := DeviceId.Entry(sku, deviceId, prefix);
            var (after, recorded) := reg.Seed(sku, deviceId, prefix);
            recorded && after.byKey == reg.byKey[e.Key() := e] && after.byPrefix == reg.byPrefix[prefix := e]
  {
  }

  /** After the journals: the devices without a marked tree are recorded where a journal of theirs leads. */
  ghost predicate JournalsRecorded(objects: map<Id, Object>, listed: seq<string>, seeded: DeviceId.Registry,
      reg: DeviceId.Registry)
    requires AreTrees(objects, listed)
  {
    && (forall k | k in seeded.byKey :: k in reg.byKey && reg.byKey[k] == seeded.byKey[k])
    && (forall k | k in reg.byKey && k !in seeded.byKey ::
        exists i :: LeadsTo(objects, listed, i, k, reg.byKey[k].prefix))
    && (forall i | 0 <= i < |listed| && Interrupted(objects, listed[i]) :: KeyOf(objects, listed[i]) in reg.byKey)
  }

  predicate LeadsTo(objects: map<Id, Object>, listed: seq<string>, i: int, key: string, prefix: string)
    requires AreTrees(objects, listed)
  {
    && 0 <= i < |listed| && Interrupted(objects, listed[i])
    && KeyOf(objects, listed[i]) == key && JournalOf(objects[Root(listed[i])]) == Some(prefix)
  }

  lemma {:induction false} JournalSeedsRecord(orig: Db, rank: Rank, db: Db, listed: seq<string>,
      seeded: DeviceId.Registry)
    requires Safe(orig, rank, db) && AreTrees(db.objects, listed) && OwnRoots(orig, Destinations(orig.objects), seeded)
    ensures var reg := JournalSeeds(db.objects, listed, seeded);
            OwnRoots(orig, Destinations(orig.objects), reg) && JournalsRecorded(db.objects, listed, seeded, reg)
  {
    hide Safe, OwnRoots, JournalsRecorded, DeviceId.Registry.Seed, Destinations, Interrupted;
    if listed == [] {
      NoJournals(db.objects, seeded);
    } else {
      JournalSeedsRecord(orig, rank, db, listed[..|listed| - 1], seeded);
      JournalSeedsStep(orig, rank, db, listed, seeded, JournalSeeds(db.objects, listed[..|listed| - 1], seeded));
    }
  }

  lemma NoJournals(objects: map<Id, Object>, seeded: DeviceId.Registry)
    ensures JournalsRecorded(objects, [], seeded, seeded)
  {
  }

  lemma JournalSeedsStep(orig: Db, rank: Rank, db: Db, listed: seq<string>, seeded: DeviceId.Registry,
      reg: DeviceId.Registry)
    requires Safe(orig, rank, db) && listed != [] && AreTrees(db.objects, listed)
    requires OwnRoots(orig, Destinations(orig.objects), reg)
    requires JournalsRecorded(db.objects, listed[..|listed| - 1], seeded, reg)
    ensures var r := listed[|listed| - 1];
            var (sku, deviceId) := DeviceOf(db.objects, r);
            var after := if Interrupted(db.objects, r) then
                reg.Seed(sku, deviceId, JournalOf(db.objects[Root(r)]).value).0 else reg;
            OwnRoots(orig, Destinations(orig.objects), after) && JournalsRecorded(db.objects, listed, seeded, after)
  {
    var n := |listed| - 1;
    var r, moves := listed[n], Destinations(orig.objects);
    if Interrupted(db.objects, r) {
      var f := OwnerIn(orig, rank, db, r);
      SeedRoot(orig, moves, reg, f, JournalOf(db.objects[Root(r)]).value);
      hide Safe, OwnRoots, DeviceId.Registry.Seed, Destinations, Interrupted;
      var (sku, deviceId) := DeviceOf(db.objects, r);
      var after := reg.Seed(sku, deviceId, JournalOf(db.objects[Root(r)]).value).0;
      OneMoreJournal(db.objects, listed, seeded, reg, after);
    } else {
      hide Safe, OwnRoots, Destinations;
      OneMoreJournal(db.objects, listed, seeded, reg, reg);
    }
  }

  lemma SeedRoot(orig: Db, moves: map<string, string>, reg: DeviceId.Registry, f: string, prefix: string)
    requires WellFormed(orig) && MovesOk(orig, moves) && OwnRoots(orig, moves, reg)
    requires IsTree(orig.objects, f) && IsRootOf(moves, f, prefix)
    ensures var (sku, deviceId) := DeviceOf(orig.objects, f);
            var (after, key) := (reg.Seed(sku, deviceId, prefix).0, KeyOf(orig.objects, f));
            && OwnRoots(orig, moves, after)
            && after.byKey == if key in reg.byKey then reg.byKey
               else reg.byKey[key := DeviceId.Entry(sku, deviceId, prefix)]
  {
    var (sku, deviceId) := DeviceOf(orig.objects, f);
    var after, key := reg.Seed(sku, deviceId, prefix).0, KeyOf(orig.objects, f);
    DeviceId.SeedKeepsInverse(reg, sku, deviceId, prefix);
    if prefix in reg.byPrefix { HeldRoot(orig, moves, reg, f, prefix); }
    if key in reg.byKey {
      assert after == reg;
    } else {
      assert after.byKey == reg.byKey[key := DeviceId.Entry(sku, deviceId, prefix)];
      hide WellFormed, MovesOk, OwnRoots, DeviceId.Registry.Inverse, DeviceId.Registry.Seed;
      EntryKeeps(orig, moves, reg, after, f, DeviceId.Entry(sku, deviceId, prefix));
    }
  }

  lemma OneMoreJournal(objects: map<Id, Object>, listed: seq<string>, seeded: DeviceId.Registry,
      reg: DeviceId.Registry, after: DeviceId.Registry)
    requires listed != [] && AreTrees(objects, listed) && JournalsRecorded(objects, listed[..|listed| - 1], seeded, reg)
    requires var r := listed[|listed| - 1];
             var key := KeyOf(objects, r);
             if !Interrupted(objects, r) || key in reg.byKey then after.byKey == reg.byKey
             else
               exists e: DeviceId.Entry ::
                 after.byKey == reg.byKey[key := e] && e.prefix == JournalOf(objects[Root(r)]).value
    ensures JournalsRecorded(objects, listed, seeded, after)
  {
    hide KeyOf;
    var n := |listed| - 1;
    var r := listed[n];
    forall k | k in after.byKey && k !in seeded.byKey ensures exists i ::
        LeadsTo(objects, listed, i, k, after.byKey[k].prefix) {
      if k in reg.byKey {
        var i :| LeadsTo(objects, listed[..n], i, k, reg.byKey[k].prefix);
        assert LeadsTo(objects, listed, i, k, after.byKey[k].prefix);
      } else {
        assert LeadsTo(objects, listed, n, k, after.byKey[k].prefix);
      }
    }
    forall i | 0 <= i < |listed| && Interrupted(objects, listed[i]) ensures KeyOf(objects, listed[i]) in after.byKey {
      if i < n { assert listed[..n][i] == listed[i]; }
    }
  }

  // ----- a start, seen from one device -----

  predicate HasJournal(listing: map<Id, Object>, r: string) {
    Root(r) in listing && JournalOf(listing[Root(r)]).Some?
  }

  ghost function Seen(orig: Db, listing: map<Id, Object>, b: Books, rest: set<string>, f: string, t: string): R.Device
    requires IsTree(orig.objects, f)
  {
    R.Device(At(orig, b.db, f, f), At(orig, b.db, f, t), ToldOf(orig, b.reg, f, t), f in b.complete, t in b.complete,
             HasJournal(listing, f), HasJournal(listing, t), f in rest, t in rest)
  }

  /** A tree of the device of `f` in a safe store is one of its two roots. */
  lemma RootByKey(orig: Db, rank: Rank, db: Db, f: string, r: string)
    requires Safe(orig, rank, db) && IsTree(db.objects, r) && IsTree(orig.objects, f)
             && KeyOf(db.objects, r) == KeyOf(orig.objects, f)
    ensures IsRootOf(Destinations(orig.objects), f, r)
  {
    var g := OwnerIn(orig, rank, db, r);
    hide Destinations, MovesOk, RestInv, AliasesHold;
    assert g == f;
  }

  /** How the abstract root and the listing speak of the same object. */
  lemma RootFacts(orig: Db, rank: Rank, db: Db, f: string, r: string)
    requires Safe(orig, rank, db) && f in Destinations(orig.objects) && r in {f, Destinations(orig.objects)[f]}
    ensures IsTree(orig.objects, f)
            && (Root(r) in db.objects ==> IsTree(db.objects, r) && KeyOf(db.objects, r) == KeyOf(orig.objects, f))
    ensures R.Complete(At(orig, db, f, r)) <==> Final(db.objects, r)
    ensures R.Unfinished(At(orig, db, f, r)) <==> IsTree(db.objects, r) && Interrupted(db.objects, r)
    ensures R.Unfinished(At(orig, db, f, r)) ==>
              JournalOf(db.objects[Root(r)]) == Some(if r == f then Destinations(orig.objects)[f] else f)
    ensures r in Roots(db.objects) <==> At(orig, db, f, r).Here?
    ensures HasJournal(db.objects, r) <==> At(orig, db, f, r).Here? && At(orig, db, f, r).journal
  {
    var moves := Destinations(orig.objects);
    assert IsTree(orig.objects, f) by { hide Destination; }
    OtherRoots(orig, moves, f);
    StandsAsTree(orig, rank, db, f, r);
    hide Destinations, MovesOk, RestInv, AliasesHold, WellFormed, Whole;
    if Root(r) in db.objects {
      var g := OwnerIn(orig, rank, db, r);
      assert g == f by { hide Safe; RootsDiffer(orig, moves, f, g, r); }
    }
  }

  lemma ListedRoot(objects: map<Id, Object>, listed: seq<string>, r: string) returns (i: nat)
    requires IsListing(objects, listed) && r in Roots(objects)
    ensures i < |listed| && listed[i] == r
  {
    assert r in listed;
    i :| i < |listed| && listed[i] == r;
  }

  /** What the marked trees leave of one key. */
  lemma MarkedKey(objects: map<Id, Object>, listed: seq<string>, reg: DeviceId.Registry, complete: set<string>,
      key: string)
    requires IsListing(objects, listed) && AreTrees(objects, listed) && MarkedRecorded(objects, listed, reg, complete)
    ensures forall r | r in complete ::
            IsTree(objects, r) && (KeyOf(objects, r) == key ==> key in reg.byKey && reg.byKey[key].prefix == r)
    ensures forall r | Final(objects, r) && KeyOf(objects, r) == key :: key in reg.byKey
    ensures key in reg.byKey ==>
              var p := reg.byKey[key].prefix; p in complete && Final(objects, p) && KeyOf(objects, p) == key
  {
    forall r | Final(objects, r) && KeyOf(objects, r) == key ensures key in reg.byKey {
      assert r in Roots(objects) by { assert Root(r) in objects; }
      var i := ListedRoot(objects, listed, r);
    }
  }

  /** After the marked trees: a device is recorded under a complete root of its own, or has none. */
  lemma MarkedDevice(orig: Db, rank: Rank, db: Db, listed: seq<string>, reg: DeviceId.Registry, complete: set<string>,
      f: string)
    requires Safe(orig, rank, db) && IsListing(db.objects, listed) && AreTrees(db.objects, listed)
    requires MarkedRecorded(db.objects, listed, reg, complete) && f in Destinations(orig.objects)
    ensures IsTree(orig.objects, f)
    ensures var (t, key) := (Destinations(orig.objects)[f], KeyOf(orig.objects, f));
            if key in reg.byKey then
              var p := reg.byKey[key].prefix;
              p in {f, t} && R.Complete(At(orig, db, f, p)) && forall r | r in {f, t} :: r in complete <==> r == p
            else forall r | r in {f, t} :: r !in complete && !R.Complete(At(orig, db, f, r))
  {
    hide Safe, Destinations, At, R.Complete, MarkedRecorded, KeyOf, IsListing, AreTrees, R.Unfinished, Interrupted;
    var t := Destinations(orig.objects)[f];
    RootFacts(orig, rank, db, f, f);
    RootFacts(orig, rank, db, f, t);
    var key := KeyOf(orig.objects, f);
    MarkedKey(db.objects, listed, reg, complete, key);
    if key in reg.byKey {
      var p := reg.byKey[key].prefix;
      RootByKey(orig, rank, db, f, p);
    }
  }

  lemma MarkedOwn(orig: Db, rank: Rank, db: Db, listed: seq<string>, reg: DeviceId.Registry, complete: set<string>)
    requires Safe(orig, rank, db) && AreTrees(db.objects, listed) && MarkedRecorded(db.objects, listed, reg, complete)
    ensures OwnRoots(orig, Destinations(orig.objects), reg)
  {
    forall k | k in reg.byKey
      ensures exists f :: Owns(orig, f, k) && IsRootOf(Destinations(orig.objects), f, reg.byKey[k].prefix)
    {
      var p := reg.byKey[k].prefix;
      var f := OwnerIn(orig, rank, db, p);
      assert Owns(orig, f, k);
    }
  }

  /** A tree that was marked from the beginning is complete at every start, and recorded. */
  lemma MarkedIsComplete(orig: Db, rank: Rank, db: Db, listed: seq<string>, reg: DeviceId.Registry,
      complete: set<string>, f: string)
    requires Safe(orig, rank, db) && IsListing(db.objects, listed) && AreTrees(db.objects, listed)
    requires MarkedRecorded(db.objects, listed, reg, complete) && IsTree(orig.objects, f) && Marked(orig.objects, f)
    ensures f in complete && KeyOf(orig.objects, f) in reg.byKey
  {
    var moves := Destinations(orig.objects);
    assert f !in moves;
    StandsAsTree(orig, rank, db, f, f);
    OriginalIsNoTarget(orig, moves, f);
    hide Destinations, AliasesHold, TargetsFree;
    assert !Concerned(Root(f), moves);
    assert Final(db.objects, f);
    assert f in Roots(db.objects);
    var i := ListedRoot(db.objects, listed, f);
    var key := KeyOf(db.objects, f);
    assert key in reg.byKey;
    var p := reg.byKey[key].prefix;
    RootByKey(orig, rank, db, f, p);
    assert p == f;
  }

  /** What the journals make of one key. */
  lemma JournalKey(objects: map<Id, Object>, listed: seq<string>, seeded: DeviceId.Registry, reg: DeviceId.Registry,
      key: string)
    requires IsListing(objects, listed) && AreTrees(objects, listed) && JournalsRecorded(objects, listed, seeded, reg)
    ensures forall r | IsTree(objects, r) && Interrupted(objects, r) && KeyOf(objects, r) == key :: key in reg.byKey
    ensures key in reg.byKey && key !in seeded.byKey ==> exists r :: LedTo(objects, r, key, reg.byKey[key].prefix)
  {
    hide KeyOf, Interrupted, JournalOf;
    forall r | IsTree(objects, r) && Interrupted(objects, r) && KeyOf(objects, r) == key ensures key in reg.byKey {
      assert r in Roots(objects) by { assert Root(r) in objects; }
      var i := ListedRoot(objects, listed, r);
    }
    if key in reg.byKey && key !in seeded.byKey {
      var i :| LeadsTo(objects, listed, i, key, reg.byKey[key].prefix);
      assert LedTo(objects, listed[i], key, reg.byKey[key].prefix);
    }
  }

  predicate LedTo(objects: map<Id, Object>, r: string, key: string, prefix: string) {
    IsTree(objects, r) && Interrupted(objects, r) && KeyOf(objects, r) == key
        && JournalOf(objects[Root(r)]) == Some(prefix)
  }

  /** A device without a complete root is recorded where a journal of its own leads, or has none. */
  lemma JournalDevice(orig: Db, rank: Rank, db: Db, listed: seq<string>, seeded: DeviceId.Registry,
      reg: DeviceId.Registry, f: string)
    requires Safe(orig, rank, db) && IsListing(db.objects, listed) && AreTrees(db.objects, listed)
    requires JournalsRecorded(db.objects, listed, seeded, reg) && f in Destinations(orig.objects)
    ensures IsTree(orig.objects, f)
    ensures KeyOf(orig.objects, f) !in seeded.byKey ==>
              var t := Destinations(orig.objects)[f];
              match ToldOf(orig, reg, f, t)
              case None => !R.Unfinished(At(orig, db, f, f)) && !R.Unfinished(At(orig, db, f, t))
              case Some(toNew) => if toNew then R.Unfinished(At(orig, db, f, f)) else R.Unfinished(At(orig, db, f, t))
  {
    hide Safe, Destinations, At, R.Complete, JournalsRecorded, KeyOf, IsListing, AreTrees, R.Unfinished, Interrupted;
    hide Final;
    var t := Destinations(orig.objects)[f];
    RootFacts(orig, rank, db, f, f);
    RootFacts(orig, rank, db, f, t);
    var key := KeyOf(orig.objects, f);
    JournalKey(db.objects, listed, seeded, reg, key);
    if key in reg.byKey && key !in seeded.byKey {
      var r :| LedTo(db.objects, r, key, reg.byKey[key].prefix);
      RootByKey(orig, rank, db, f, r);
    }
  }

  /** The whole seeding: every device is as a start finds it. */
  lemma SeededDevice(orig: Db, rank: Rank, s: Start, f: string)
    requires Safe(orig, rank, s.before) && IsSeeded(s) && f in Destinations(orig.objects)
    ensures IsTree(orig.objects, f)
    ensures R.Seeded(Seen(orig, s.before.objects, s.first, s.waiting, f, Destinations(orig.objects)[f]))
  {
    var objects, t := s.before.objects, Destinations(orig.objects)[f];
    var (reg, complete) := MarkedSeeds(objects, s.listed);
    MarkedSeedsRecord(objects, s.listed);
    MarkedDevice(orig, rank, s.before, s.listed, reg, complete, f);
    RootFacts(orig, rank, s.before, f, f);
    RootFacts(orig, rank, s.before, f, t);
    var key := KeyOf(orig.objects, f);
    MarkedOwn(orig, rank, s.before, s.listed, reg, complete);
    JournalSeedsRecord(orig, rank, s.before, s.listed, reg);
    hide Safe, Destinations, MarkedSeeds, JournalSeeds, MarkedRecorded, OwnRoots;
    var after := s.first.reg;
    if key in reg.byKey {
      assert after.byKey[key] == reg.byKey[key];
    } else {
      JournalDevice(orig, rank, s.before, s.listed, reg, after, f);
    }
  }

  // ----- the run over the waiting trees -----

  /** Only trees of the listing wait, and none of them was marked from the beginning. */
  ghost predicate WaitingOk(orig: Db, start: Db, rest: set<string>) {
    && rest <= Roots(start.objects)
    && forall r | r in rest && IsTree(orig.objects, r) :: !Marked(orig.objects, r)
  }

  ghost predicate DeviceReady(orig: Db, rank: Rank, start: Db, b: Books, rest: set<string>, f: string, t: string) {
    IsTree(orig.objects, f) && R.Ready(rank(f) < rank(t), Seen(orig, start.objects, b, rest, f, t))
  }

  ghost predicate RunSafe(orig: Db, rank: Rank, start: Db, b: Books, rest: set<string>) {
    var moves := Destinations(orig.objects);
    && Safe(orig, rank, start) && Safe(orig, rank, b.db)
    && RegistrySafe(orig, moves, b.reg) && WaitingOk(orig, start, rest)
    && forall f | f in moves :: DeviceReady(orig, rank, start, b, rest, f, moves[f])
  }

  lemma SeedingIsSafe(orig: Db, rank: Rank, s: Start)
    requires Safe(orig, rank, s.before) && IsSeeded(s)
    ensures RegistrySafe(orig, Destinations(orig.objects), s.first.reg) && WaitingOk(orig, s.before, s.waiting)
  {
    var objects, moves := s.before.objects, Destinations(orig.objects);
    var (reg, complete) := MarkedSeeds(objects, s.listed);
    MarkedSeedsRecord(objects, s.listed);
    MarkedOwn(orig, rank, s.before, s.listed, reg, complete);
    JournalSeedsRecord(orig, rank, s.before, s.listed, reg);
    hide Safe, Destinations, MarkedSeeds, JournalSeeds, MarkedRecorded, OwnRoots, IsListing, AreTrees;
    forall f | IsTree(orig.objects, f) && Marked(orig.objects, f)
      ensures f in complete && KeyOf(orig.objects, f) in s.first.reg.byKey
    {
      MarkedIsComplete(orig, rank, s.before, s.listed, reg, complete, f);
    }
  }

  lemma StartIsSafe(orig: Db, rank: Rank, s: Start)
    requires Safe(orig, rank, s.before) && IsSeeded(s)
    ensures RunSafe(orig, rank, s.before, s.first, s.waiting)
  {
    SeedingIsSafe(orig, rank, s);
    hide IsSeeded, RegistrySafe, WaitingOk, Seen, R.Seeded;
    var moves := Destinations(orig.objects);
    assert s.first.db == s.before by { SeededDb(s); }
    forall f | f in moves ensures DeviceReady(orig, rank, s.before, s.first, s.waiting, f, moves[f]) {
      SeededDevice(orig, rank, s, f);
      SeededReady(orig, rank, s, f);
    }
  }

  lemma SeededDb(s: Start)
    requires IsSeeded(s)
    ensures s.first.db == s.before
  {
  }

  lemma SeededReady(orig: Db, rank: Rank, s: Start, f: string)
    requires Safe(orig, rank, s.before) && s.first.db == s.before && f in Destinations(orig.objects)
             && IsTree(orig.objects, f)
    requires R.Seeded(Seen(orig, s.before.objects, s.first, s.waiting, f, Destinations(orig.objects)[f]))
    ensures DeviceReady(orig, rank, s.before, s.first, s.waiting, f, Destinations(orig.objects)[f])
  {
    hide R.Seeded, R.Ready, R.Good;
    var t := Destinations(orig.objects)[f];
    assert DeviceSafe(orig, rank, s.before, f, t);
    R.SeededIsReady(rank(f) < rank(t), Seen(orig, s.before.objects, s.first, s.waiting, f, t));
  }

  // ----- one step -----

  /** Devices away from the roots a step changed look the same. */
  lemma OthersLookAlike(orig: Db, db: Db, after: Db, roots: set<string>, g: string, r: string)
    requires SameBeyond(db, after, roots) && r !in roots
    ensures At(orig, after, g, r) == At(orig, db, g, r)
  {
    AgreeAt(orig, db, after, g, r);
  }

  lemma OthersAreSafe(orig: Db, rank: Rank, db: Db, after: Db, roots: set<string>, g: string, t: string)
    requires DeviceSafe(orig, rank, db, g, t) && SameBeyond(db, after, roots) && g !in roots && t !in roots
    ensures DeviceSafe(orig, rank, after, g, t)
  {
    OthersLookAlike(orig, db, after, roots, g, g);
    OthersLookAlike(orig, db, after, roots, g, t);
    hide IsVersion, At, R.Good;
  }

  /** A step that holds one device leaves a safe store. */
  lemma HeldIsSafe(orig: Db, rank: Rank, db: Db, after: Db, f: string)
    requires Safe(orig, rank, db) && f in Destinations(orig.objects)
    requires var moves := Destinations(orig.objects);
             Held(orig, db, after, moves, f)
                 && R.Good(rank(f) < rank(moves[f]), At(orig, after, f, f), At(orig, after, f, moves[f]))
    ensures Safe(orig, rank, after)
  {
    hide Destinations, WellFormed, MovesOk, RestInv, AliasesHold, Versions, At, R.Good, SameBeyond;
    var moves := Destinations(orig.objects);
    var roots := {f, moves[f]};
    OtherRoots(orig, moves, f);
    RestKeeps(orig, db, moves, after, moves, roots);
    forall g | g in moves ensures DeviceSafe(orig, rank, after, g, moves[g]) {
      if g != f {
        assert DeviceSafe(orig, rank, db, g, moves[g]);
        OthersAreSafe(orig, rank, db, after, roots, g, moves[g]);
      }
    }
  }

  /** The mark on a tree that stands where it belongs. */
  lemma OwnMarkIsSafe(orig: Db, rank: Rank, db: Db, f: string)
    requires Safe(orig, rank, db) && IsTree(orig.objects, f) && f !in Destinations(orig.objects)
    ensures Safe(orig, rank, Extension(db, f)) && SameBeyond(db, Extension(db, f), {f})
    ensures forall g | g in Destinations(orig.objects) :: g != f && Destinations(orig.objects)[g] != f
  {
    hide Destinations, WellFormed, IsTree, AliasesHold, Versions, At, R.Good, SameBeyond;
    var moves, after := Destinations(orig.objects), Extension(db, f);
    MarkRest(orig, db, moves, f);
    assert forall g | g in moves :: moves[g] in Targets(moves);
    AliasesStay(orig, db, after, moves, f);
    hide RestInv, MovesOk;
    forall g | g in moves ensures DeviceSafe(orig, rank, after, g, moves[g]) {
      assert DeviceSafe(orig, rank, db, g, moves[g]);
      OthersAreSafe(orig, rank, db, after, {f}, g, moves[g]);
    }
  }

  /** The other root of a device. */
  function Away(f: string, t: string, r: string): string {
    if r == f then t else f
  }

  /** The next tree is a root of the device of `f`, which moves. */
  ghost predicate MoverIsNext(orig: Db, rank: Rank, start: Db, b: Books, rest: set<string>, rel: string, f: string) {
    var moves := Destinations(orig.objects);
    && RunSafe(orig, rank, start, b, rest) && IsEarliest(rank, rest, rel) && IsOrder(rank)
    && f in moves && rel in {f, moves[f]}
    && IsTree(orig.objects, f) && IsTree(start.objects, rel)
       && DeviceOf(start.objects, rel) == DeviceOf(orig.objects, f)
    && (JournalOf(start.objects[Root(rel)]).Some? ==>
        JournalOf(start.objects[Root(rel)]) == Some(Away(f, moves[f], rel)))
  }

  /** What the registry answers a device that moves: the root it was told before, or the new one. */
  lemma MoverAsked(orig: Db, rank: Rank, start: Db, b: Books, rest: set<string>, rel: string, f: string)
    requires MoverIsNext(orig, rank, start, b, rest, rel, f)
    ensures var t := Destinations(orig.objects)[f];
            var seen, (reg, target) := Seen(orig, start.objects, b, rest, f, t), Asked(start.objects, b, rel);
            && f != t && target == (if R.ToldNew(seen) then t else f)
            && RegistrySafe(orig, Destinations(orig.objects), reg) && OthersTold(orig, b.reg, reg, f)
            && ToldOf(orig, reg, f, t) == Some(R.ToldNew(seen)) && KeyOf(orig.objects, f) in reg.byKey
  {
    var moves := Destinations(orig.objects);
    OtherRoots(orig, moves, f);
    AskKeeps(orig, moves, b.reg, f);
    if KeyOf(orig.objects, f) in b.reg.byKey { RecordedRoot(orig, moves, b.reg, f); }
    hide Destinations, RegistrySafe, DeviceId.Registry.PrefixFor, WellFormed, MovesOk, OthersTold, OwnRoots;
  }

  /** It sorts first of its device, it stands, and where it moves to nothing can be missing. */
  lemma MoverStands(orig: Db, rank: Rank, start: Db, b: Books, rest: set<string>, rel: string, f: string)
    requires MoverIsNext(orig, rank, start, b, rest, rel, f)
    ensures var t := Destinations(orig.objects)[f];
            var seen, onNew := Seen(orig, start.objects, b, rest, f, t), rel == t;
            && f != t && R.Ready(rank(f) < rank(t), seen) && R.IsNext(rank(f) < rank(t), seen, onNew)
               && R.Own(seen, onNew).Here?
            && (R.ToldNew(seen) != onNew && R.Fills(seen, onNew) ==> R.MarkedThere(R.Other(seen, onNew)))
            && (R.ToldNew(seen) != onNew && R.Skips(R.Other(seen, onNew), R.Fills(seen, onNew)) ==>
                R.Other(seen, onNew).whole)
  {
    var moves := Destinations(orig.objects);
    OtherRoots(orig, moves, f);
    assert DeviceReady(orig, rank, start, b, rest, f, moves[f]);
    var seen, onNew := Seen(orig, start.objects, b, rest, f, moves[f]), rel == moves[f];
    hide Destinations, RegistrySafe, WellFormed, MovesOk, OwnRoots, Safe, At, R.Ready;
    R.NextStands(rank(f) < rank(moves[f]), seen, onNew);
  }

  lemma SafeDevice(orig: Db, rank: Rank, db: Db, f: string)
    requires Safe(orig, rank, db) && f in Destinations(orig.objects)
    ensures var moves := Destinations(orig.objects);
            && MovesOk(orig, moves) && AliasesHold(orig, db, moves)
            && Versions(orig, db, f, moves[f]) && Roots2(orig, f, moves[f])
  {
    var moves := Destinations(orig.objects);
    assert DeviceSafe(orig, rank, db, f, moves[f]);
    OtherRoots(orig, moves, f);
    hide Destinations, RestInv, AliasesHold, TargetsFree, Versions, R.Good;
  }

  lemma RootSays(orig: Db, db: Db, f: string, r: string)
    ensures At(orig, db, f, r).Here? <==> Root(r) in db.objects
    ensures R.MarkedThere(At(orig, db, f, r)) <==> Marked(db.objects, r)
    ensures At(orig, db, f, r).Here? && At(orig, db, f, r).whole ==> Whole(orig, db, f, r)
  {
  }

  /** The same, in terms of the two roots. */
  lemma MoverGoes(orig: Db, rank: Rank, start: Db, b: Books, rest: set<string>, rel: string, f: string)
    requires MoverIsNext(orig, rank, start, b, rest, rel, f)
    ensures var t := Destinations(orig.objects)[f];
            var target, away := Asked(start.objects, b, rel).1, Away(f, t, rel);
            && f != t && target in {f, t} && Root(rel) in b.db.objects
            && (target != rel ==>
                  && target == away
                  && (away in b.complete ==> Marked(b.db.objects, away))
                  && (away !in b.complete && Marked(b.db.objects, away) ==> Whole(orig, b.db, f, away)))
  {
    hide Destinations, RunSafe, R.Ready, R.IsNext, OthersTold, Asked, IsEarliest, At, IsOrder, Whole, Marked;
    var t := Destinations(orig.objects)[f];
    MoverAsked(orig, rank, start, b, rest, rel, f);
    MoverStands(orig, rank, start, b, rest, rel, f);
    RootSays(orig, b.db, f, rel);
    RootSays(orig, b.db, f, Away(f, t, rel));
  }

  /** So the move may start. */
  lemma MoverMaySafely(orig: Db, rank: Rank, start: Db, b: Books, rest: set<string>, rel: string, f: string)
    requires MoverIsNext(orig, rank, start, b, rest, rel, f)
    ensures var moves := Destinations(orig.objects);
            var target := Asked(start.objects, b, rel).1;
            target != rel ==>
              target == Away(f, moves[f], rel) && MaySafely(orig, b.db, moves, f, rel, target, target in b.complete)
  {
    hide Destinations, RunSafe, MovesOk, Versions, AliasesHold, Whole, Asked, IsEarliest, Marked, Safe, Roots2;
    MoverGoes(orig, rank, start, b, rest, rel, f);
    RunHas(orig, rank, start, b, rest);
    SafeDevice(orig, rank, b.db, f);
  }

  lemma RunHas(orig: Db, rank: Rank, start: Db, b: Books, rest: set<string>)
    requires RunSafe(orig, rank, start, b, rest)
    ensures Safe(orig, rank, start) && Safe(orig, rank, b.db)
    ensures RegistrySafe(orig, Destinations(orig.objects), b.reg) && WaitingOk(orig, start, rest)
    ensures forall f | f in Destinations(orig.objects) ::
            DeviceReady(orig, rank, start, b, rest, f, Destinations(orig.objects)[f])
  {
    hide Safe, RegistrySafe, WaitingOk, DeviceReady, Destinations;
  }

  /** What a device that moves looks like before its next step. */
  ghost function Before(orig: Db, start: Db, b: Books, rest: set<string>, f: string): R.Device
    requires IsTree(orig.objects, f) && f in Destinations(orig.objects)
  {
    Seen(orig, start.objects, b, rest, f, Destinations(orig.objects)[f])
  }

  /** The two roots in a store, the one that is handled first. */
  ghost predicate PassesAt(orig: Db, start: Db, b: Books, rest: set<string>, rel: string, f: string, d: Db)
    requires IsTree(orig.objects, f) && f in Destinations(orig.objects)
  {
    var t := Destinations(orig.objects)[f];
    var seen, onNew := Before(orig, start, b, rest, f), rel == t;
    && R.Own(seen, onNew).Here?
       && (R.ToldNew(seen) != onNew && R.Fills(seen, onNew) ==> R.MarkedThere(R.Other(seen, onNew)))
    && R.Passes(seen, onNew, At(orig, d, f, rel), At(orig, d, f, Away(f, t, rel)))
  }

  ghost predicate EndsAt(orig: Db, start: Db, b: Books, rest: set<string>, rel: string, f: string, d: Db)
    requires IsTree(orig.objects, f) && f in Destinations(orig.objects)
  {
    var t := Destinations(orig.objects)[f];
    var seen, onNew := Before(orig, start, b, rest, f), rel == t;
    && R.Own(seen, onNew).Here?
       && (R.ToldNew(seen) != onNew && R.Fills(seen, onNew) ==> R.MarkedThere(R.Other(seen, onNew)))
    && R.Ends(seen, onNew, At(orig, d, f, rel), At(orig, d, f, Away(f, t, rel)))
  }

  lemma NothingHeld(orig: Db, rank: Rank, db: Db, f: string)
    requires Safe(orig, rank, db) && f in Destinations(orig.objects)
    ensures Held(orig, db, db, Destinations(orig.objects), f)
  {
    SafeDevice(orig, rank, db, f);
    hide Destinations, Safe, Versions, AliasesHold, Roots2, MovesOk;
  }

  /** The mark on the root that is handled. */
  lemma MoverMarked(orig: Db, rank: Rank, start: Db, b: Books, rest: set<string>, rel: string, f: string)
    requires MoverIsNext(orig, rank, start, b, rest, rel, f) && Asked(start.objects, b, rel).1 == rel
    ensures Held(orig, b.db, Extension(b.db, rel), Destinations(orig.objects), f)
    ensures Held(orig, b.db, b.db, Destinations(orig.objects), f)
    ensures PassesAt(orig, start, b, rest, rel, f, b.db) && EndsAt(orig, start, b, rest, rel, f, Extension(b.db, rel))
    ensures PassesAt(orig, start, b, rest, rel, f, Extension(b.db, rel))
  {
    hide Destinations, RunSafe, R.Ready, R.IsNext, OthersTold, Asked, IsEarliest, At, IsOrder, Extension, Held, Safe;
    hide Versions, AliasesHold, MovesOk;
    var moves := Destinations(orig.objects);
    RunHas(orig, rank, start, b, rest);
    MoverAsked(orig, rank, start, b, rest, rel, f);
    MoverStands(orig, rank, start, b, rest, rel, f);
    MoverGoes(orig, rank, start, b, rest, rel, f);
    SafeDevice(orig, rank, b.db, f);
    NothingHeld(orig, rank, b.db, f);
    MarkHolds(orig, b.db, moves, f, rel);
  }

  /** Every point of the move of the root that is handled. */
  lemma MoverMoves(orig: Db, rank: Rank, start: Db, b: Books, rest: set<string>, rel: string, f: string, d: Db)
    requires MoverIsNext(orig, rank, start, b, rest, rel, f)
    requires var target := Asked(start.objects, b, rel).1;
             target != rel && MovePoint(b.db, rel, JournalOf(start.objects[Root(rel)]), target, target in b.complete, d)
    ensures Held(orig, b.db, d, Destinations(orig.objects), f) && PassesAt(orig, start, b, rest, rel, f, d)
  {
    hide Destinations, RunSafe, R.Ready, R.IsNext, OthersTold, Asked, IsEarliest, At, IsOrder, Held, Safe, MovePoint;
    hide MaySafely, R.MovePasses;
    var moves, target := Destinations(orig.objects), Asked(start.objects, b, rel).1;
    MoverAsked(orig, rank, start, b, rest, rel, f);
    MoverStands(orig, rank, start, b, rest, rel, f);
    MoverMaySafely(orig, rank, start, b, rest, rel, f);
    MoveHolds(orig, b.db, moves, f, rel, target, JournalOf(start.objects[Root(rel)]), target in b.complete, d);
  }

  /** And its end. */
  lemma MoverMoved(orig: Db, rank: Rank, start: Db, b: Books, rest: set<string>, rel: string, f: string)
    requires MoverIsNext(orig, rank, start, b, rest, rel, f) && Asked(start.objects, b, rel).1 != rel
    ensures var target := Asked(start.objects, b, rel).1;
            var d := MovedTree(b.db, rel, JournalOf(start.objects[Root(rel)]), target, target in b.complete);
            Held(orig, b.db, d, Destinations(orig.objects), f) && EndsAt(orig, start, b, rest, rel, f, d)
  {
    hide Destinations, RunSafe, R.Ready, R.IsNext, OthersTold, Asked, IsEarliest, At, IsOrder, Held, Safe, MovedTree;
    hide MaySafely, R.Copied;
    var moves, target := Destinations(orig.objects), Asked(start.objects, b, rel).1;
    MoverAsked(orig, rank, start, b, rest, rel, f);
    MoverStands(orig, rank, start, b, rest, rel, f);
    MoverMaySafely(orig, rank, start, b, rest, rel, f);
    MoveEnds(orig, b.db, moves, f, rel, target, JournalOf(start.objects[Root(rel)]), target in b.complete);
  }

  /** Whatever point the handling of a tree of a device that moves is stopped at. */
  lemma MoverPointIsSafe(orig: Db, rank: Rank, start: Db, b: Books, rest: set<string>, rel: string, f: string, d: Db)
    requires MoverIsNext(orig, rank, start, b, rest, rel, f)
    requires TreePoint(start.objects, b, rel, Asked(start.objects, b, rel).1, d)
    ensures Held(orig, b.db, d, Destinations(orig.objects), f) && PassesAt(orig, start, b, rest, rel, f, d)
    ensures Safe(orig, rank, d)
  {
    hide Destinations, RunSafe, R.Ready, R.IsNext, Asked, IsEarliest, At, IsOrder, Held, Safe, MovePoint, R.Good;
    hide Extension, R.Passes;
    if Asked(start.objects, b, rel).1 == rel {
      MoverMarked(orig, rank, start, b, rest, rel, f);
    } else {
      MoverMoves(orig, rank, start, b, rest, rel, f, d);
    }
    PassedIsSafe(orig, rank, start, b, rest, rel, f, d);
  }

  lemma PassedIsSafe(orig: Db, rank: Rank, start: Db, b: Books, rest: set<string>, rel: string, f: string, d: Db)
    requires MoverIsNext(orig, rank, start, b, rest, rel, f)
    requires Held(orig, b.db, d, Destinations(orig.objects), f) && PassesAt(orig, start, b, rest, rel, f, d)
    ensures Safe(orig, rank, d)
  {
    hide Destinations, RunSafe, R.Ready, R.IsNext, Asked, IsEarliest, At, IsOrder, Held, Safe, MovePoint, R.Good;
    hide R.Passes;
    var t := Destinations(orig.objects)[f];
    MoverStands(orig, rank, start, b, rest, rel, f);
    R.PointIsGood(rank(f) < rank(t), Before(orig, start, b, rest, f), rel == t, At(orig, d, f, rel),
        At(orig, d, f, Away(f, t, rel)));
    RunHas(orig, rank, start, b, rest);
    HeldIsSafe(orig, rank, b.db, d, f);
  }

  /** Books that changed for one device only. */
  ghost predicate OnlyOne(orig: Db, b: Books, after: Books, roots: set<string>, f: string)
    requires IsTree(orig.objects, f)
  {
    && SameBeyond(b.db, after.db, roots) && OthersTold(orig, b.reg, after.reg, f)
    && forall r | r !in roots :: r in after.complete <==> r in b.complete
  }

  lemma OthersUnseen(orig: Db, start: Db, b: Books, after: Books, rest: set<string>, rel: string, roots: set<string>,
      f: string, g: string, t: string)
    requires IsTree(orig.objects, f) && IsTree(orig.objects, g) && KeyOf(orig.objects, g) != KeyOf(orig.objects, f)
    requires OnlyOne(orig, b, after, roots, f) && rel in roots && g !in roots && t !in roots
    ensures Seen(orig, start.objects, after, rest - {rel}, g, t) == Seen(orig, start.objects, b, rest, g, t)
  {
    OthersLookAlike(orig, b.db, after.db, roots, g, g);
    OthersLookAlike(orig, b.db, after.db, roots, g, t);
    hide At, SameBeyond;
  }

  lemma OthersStay(orig: Db, rank: Rank, start: Db, b: Books, after: Books, rest: set<string>, rel: string, f: string,
      g: string)
    requires MoverIsNext(orig, rank, start, b, rest, rel, f) && g in Destinations(orig.objects) && g != f
    requires OnlyOne(orig, b, after, {f, Destinations(orig.objects)[f]}, f)
    ensures IsTree(orig.objects, g)
    ensures Before(orig, start, after, rest - {rel}, g) == Before(orig, start, b, rest, g)
  {
    hide RunSafe, Safe, Seen, OnlyOne, Destinations, IsEarliest, IsOrder, KeyOf, DeviceOf;
    var moves := Destinations(orig.objects);
    MoversApart(orig, rank, start, b, rest, f, g);
    OthersUnseen(orig, start, b, after, rest, rel, {f, moves[f]}, f, g, moves[g]);
  }

  lemma MoversApart(orig: Db, rank: Rank, start: Db, b: Books, rest: set<string>, f: string, g: string)
    requires RunSafe(orig, rank, start, b, rest)
    requires f in Destinations(orig.objects) && g in Destinations(orig.objects) && g != f && IsTree(orig.objects, f)
    ensures IsTree(orig.objects, g) && KeyOf(orig.objects, g) != KeyOf(orig.objects, f)
    ensures var moves := Destinations(orig.objects); g !in {f, moves[f]} && moves[g] !in {f, moves[f]}
  {
    hide Destinations, RestInv, AliasesHold, RegistrySafe, WaitingOk, TargetsFree, Seen;
    OtherRoots(orig, Destinations(orig.objects), f);
    assert DeviceReady(orig, rank, start, b, rest, g, Destinations(orig.objects)[g]);
  }

  /** With the device that was handled ready again, the run is safe again. */
  lemma RunStaysSafe(orig: Db, rank: Rank, start: Db, b: Books, after: Books, rest: set<string>, rel: string, f: string)
    requires MoverIsNext(orig, rank, start, b, rest, rel, f) && Safe(orig, rank, after.db)
    requires OnlyOne(orig, b, after, {f, Destinations(orig.objects)[f]}, f)
             && RegistrySafe(orig, Destinations(orig.objects), after.reg)
    requires DeviceReady(orig, rank, start, after, rest - {rel}, f, Destinations(orig.objects)[f])
    ensures RunSafe(orig, rank, start, after, rest - {rel})
  {
    hide Destinations, Safe, RegistrySafe, Seen, R.Ready, OnlyOne, IsEarliest, IsOrder, Roots, Marked;
    RunHas(orig, rank, start, b, rest);
    forall g | g in Destinations(orig.objects)
      ensures DeviceReady(orig, rank, start, after, rest - {rel}, g, Destinations(orig.objects)[g])
    {
      if g != f {
        assert DeviceReady(orig, rank, start, b, rest, g, Destinations(orig.objects)[g]);
        OthersStay(orig, rank, start, b, after, rest, rel, f, g);
      }
    }
  }

  /** The device that was handled, after its tree was dealt with. */
  lemma DoneLooks(orig: Db, rank: Rank, start: Db, b: Books, after: Books, rest: set<string>, rel: string, f: string)
    requires MoverIsNext(orig, rank, start, b, rest, rel, f)
    requires var (reg, target) := Asked(start.objects, b, rel); after == Books(after.db, reg, b.complete + {target})
    ensures var t := Destinations(orig.objects)[f];
            var own, other := At(orig, after.db, f, rel), At(orig, after.db, f, Away(f, t, rel));
            Before(orig, start, after, rest - {rel}, f)
                == R.AfterDone(Before(orig, start, b, rest, f), rel == t, own, other)
  {
    hide Destinations, RunSafe, Asked, IsEarliest, At, IsOrder, OthersTold, HasJournal, RegistrySafe, ToldOf;
    MoverAsked(orig, rank, start, b, rest, rel, f);
  }

  lemma DoneIsReady(orig: Db, rank: Rank, start: Db, b: Books, after: Books, rest: set<string>, rel: string, f: string)
    requires MoverIsNext(orig, rank, start, b, rest, rel, f) && EndsAt(orig, start, b, rest, rel, f, after.db)
    requires var (reg, target) := Asked(start.objects, b, rel); after == Books(after.db, reg, b.complete + {target})
    ensures DeviceReady(orig, rank, start, after, rest - {rel}, f, Destinations(orig.objects)[f])
  {
    hide Destinations, RunSafe, R.Ready, R.IsNext, Asked, IsEarliest, At, IsOrder, OthersTold, R.Good, R.Ends, Seen;
    hide RegistrySafe;
    var t := Destinations(orig.objects)[f];
    MoverStands(orig, rank, start, b, rest, rel, f);
    var own, other := At(orig, after.db, f, rel), At(orig, after.db, f, Away(f, t, rel));
    R.DoneKeepsReady(rank(f) < rank(t), Before(orig, start, b, rest, f), rel == t, own, other);
    DoneLooks(orig, rank, start, b, after, rest, rel, f);
  }

  /** The device that was handled, after a refused write. */
  lemma RefusedIsReady(orig: Db, rank: Rank, start: Db, b: Books, after: Books, rest: set<string>, rel: string,
      f: string)
    requires MoverIsNext(orig, rank, start, b, rest, rel, f) && PassesAt(orig, start, b, rest, rel, f, after.db)
    requires after.complete == b.complete
             && ToldOf(orig, after.reg, f, Destinations(orig.objects)[f]) == Some(rel == Destinations(orig.objects)[f])
    requires Asked(start.objects, b, rel).1 == rel ==> after.db == b.db
    ensures DeviceReady(orig, rank, start, after, rest - {rel}, f, Destinations(orig.objects)[f])
  {
    hide Destinations, RunSafe, R.Ready, R.IsNext, Asked, IsEarliest, At, IsOrder, OthersTold, R.Good, R.Passes;
    hide HasJournal, RegistrySafe;
    var t := Destinations(orig.objects)[f];
    MoverAsked(orig, rank, start, b, rest, rel, f);
    MoverStands(orig, rank, start, b, rest, rel, f);
    var own, other := At(orig, after.db, f, rel), At(orig, after.db, f, Away(f, t, rel));
    R.RefusalKeepsReady(rank(f) < rank(t), Before(orig, start, b, rest, f), rel == t, own, other);
    hide ToldOf;
    assert Seen(orig, start.objects, after, rest - {rel}, f, t)
           == R.AfterRefusal(Before(orig, start, b, rest, f), rel == t, own, other);
  }

  lemma HeldIsOnlyOne(orig: Db, b: Books, after: Books, moves: map<string, string>, f: string)
    requires f in moves && IsTree(orig.objects, f) && Held(orig, b.db, after.db, moves, f)
             && OthersTold(orig, b.reg, after.reg, f)
    requires forall r | r !in {f, moves[f]} :: r in after.complete <==> r in b.complete
    ensures OnlyOne(orig, b, after, {f, moves[f]}, f)
  {
    hide SameBeyond, OthersTold, Versions, AliasesHold;
  }

  lemma TellChains(orig: Db, a: DeviceId.Registry, b: DeviceId.Registry, c: DeviceId.Registry, f: string)
    requires IsTree(orig.objects, f) && OthersTold(orig, a, b, f) && OthersTold(orig, b, c, f)
    ensures OthersTold(orig, a, c, f)
  {
  }

  /** The end of a step, for the device it was about and for all others. */
  lemma DoneEnds(orig: Db, rank: Rank, start: Db, b: Books, after: Books, rest: set<string>, rel: string, f: string)
    requires MoverIsNext(orig, rank, start, b, rest, rel, f)
    requires var (reg, target) := Asked(start.objects, b, rel);
             after == Books(DealtWith(start.objects, b, rel, target), reg, b.complete + {target})
    ensures IsTree(orig.objects, f) && f in Destinations(orig.objects)
    ensures EndsAt(orig, start, b, rest, rel, f, after.db)
    ensures OnlyOne(orig, b, after, {f, Destinations(orig.objects)[f]}, f)
    ensures RegistrySafe(orig, Destinations(orig.objects), after.reg)
  {
    hide Destinations, RunSafe, Asked, IsEarliest, IsOrder, OthersTold, Held, Safe, RegistrySafe, MovedTree, EndsAt;
    hide OnlyOne, Extension, Seen;
    var target := Asked(start.objects, b, rel).1;
    MoverAsked(orig, rank, start, b, rest, rel, f);
    MoverGoes(orig, rank, start, b, rest, rel, f);
    if target == rel {
      MoverMarked(orig, rank, start, b, rest, rel, f);
    } else {
      MoverMoved(orig, rank, start, b, rest, rel, f);
    }
    HeldIsOnlyOne(orig, b, after, Destinations(orig.objects), f);
  }

  /** A tree of a device that moves was dealt with. */
  lemma MoverDone(orig: Db, rank: Rank, start: Db, b: Books, after: Books, rest: set<string>, rel: string, f: string)
    requires MoverIsNext(orig, rank, start, b, rest, rel, f)
    requires var (reg, target) := Asked(start.objects, b, rel);
             after == Books(DealtWith(start.objects, b, rel, target), reg, b.complete + {target})
    requires Safe(orig, rank, after.db)
    ensures RunSafe(orig, rank, start, after, rest - {rel})
  {
    hide Destinations, RunSafe, Asked, IsEarliest, IsOrder, Safe, RegistrySafe, DealtWith, EndsAt, OnlyOne, Seen;
    DoneEnds(orig, rank, start, b, after, rest, rel, f);
    DoneIsReady(orig, rank, start, b, after, rest, rel, f);
    RunStaysSafe(orig, rank, start, b, after, rest, rel, f);
  }

  /** A write for a tree of a device that moves was refused. */
  lemma MoverRefused(orig: Db, rank: Rank, start: Db, b: Books, after: Books, rest: set<string>, rel: string, f: string)
    requires MoverIsNext(orig, rank, start, b, rest, rel, f)
    requires var (reg, target) := Asked(start.objects, b, rel);
             && after == Books(after.db,
                reg.KeepUnmoved(DeviceOf(start.objects, rel).0, DeviceOf(start.objects, rel).1, rel), b.complete)
             && TreePoint(start.objects, b, rel, target, after.db) && (target == rel ==> after.db == b.db)
    ensures RunSafe(orig, rank, start, after, rest - {rel})
  {
    hide Destinations, RunSafe, Asked, IsEarliest, IsOrder, OthersTold, Held, Safe, RegistrySafe, TreePoint, PassesAt;
    hide OnlyOne, Seen;
    hide DeviceId.Registry.KeepUnmoved, WellFormed, MovesOk;
    var reg, moves := Asked(start.objects, b, rel).0, Destinations(orig.objects);
    MoverAsked(orig, rank, start, b, rest, rel, f);
    MoverPointIsSafe(orig, rank, start, b, rest, rel, f, after.db);
    SafeIsWellFormed(orig, rank, after.db);
    KeepKeeps(orig, moves, reg, f, rel);
    TellChains(orig, b.reg, reg, after.reg, f);
    RefusedIsReady(orig, rank, start, b, after, rest, rel, f);
    HeldIsOnlyOne(orig, b, after, moves, f);
    RunStaysSafe(orig, rank, start, b, after, rest, rel, f);
  }

  lemma SafeIsWellFormed(orig: Db, rank: Rank, db: Db)
    requires Safe(orig, rank, db)
    ensures WellFormed(orig) && MovesOk(orig, Destinations(orig.objects))
  {
  }

  // A device that stays where it is: it is only marked.

  ghost predicate StayerIsNext(orig: Db, rank: Rank, start: Db, b: Books, rest: set<string>, f: string) {
    && RunSafe(orig, rank, start, b, rest) && f in rest && f !in Destinations(orig.objects)
    && IsTree(orig.objects, f) && IsTree(start.objects, f) && DeviceOf(start.objects, f) == DeviceOf(orig.objects, f)
  }

  lemma StayerAsked(orig: Db, rank: Rank, start: Db, b: Books, rest: set<string>, f: string)
    requires StayerIsNext(orig, rank, start, b, rest, f)
    ensures var (reg, target) := Asked(start.objects, b, f);
            var kept := reg.KeepUnmoved(DeviceOf(start.objects, f).0, DeviceOf(start.objects, f).1, f);
            && target == f
            && RegistrySafe(orig, Destinations(orig.objects), reg) && OthersTold(orig, b.reg, reg, f)
            && RegistrySafe(orig, Destinations(orig.objects), kept) && OthersTold(orig, b.reg, kept, f)
  {
    hide Destinations, RunSafe, OthersTold, Safe, RegistrySafe, DeviceId.Registry.KeepUnmoved;
    hide DeviceId.Registry.PrefixFor;
    hide WellFormed, MovesOk;
    var moves, reg := Destinations(orig.objects), Asked(start.objects, b, f).0;
    RunHas(orig, rank, start, b, rest);
    SafeIsWellFormed(orig, rank, start);
    AskKeeps(orig, moves, b.reg, f);
    KeepKeeps(orig, moves, reg, f, f);
    TellChains(orig, b.reg, reg, reg.KeepUnmoved(DeviceOf(start.objects, f).0, DeviceOf(start.objects, f).1, f), f);
  }

  lemma StayerPoint(orig: Db, rank: Rank, start: Db, b: Books, rest: set<string>, f: string, d: Db)
    requires StayerIsNext(orig, rank, start, b, rest, f) && (d == b.db || d == Extension(b.db, f))
    ensures Safe(orig, rank, d) && SameBeyond(b.db, d, {f})
  {
    hide Destinations, RunSafe, Safe;
    RunHas(orig, rank, start, b, rest);
    OwnMarkIsSafe(orig, rank, b.db, f);
  }

  lemma StayerSteps(orig: Db, rank: Rank, start: Db, b: Books, after: Books, rest: set<string>, f: string)
    requires StayerIsNext(orig, rank, start, b, rest, f)
    requires after.db == b.db || after.db == Extension(b.db, f)
    requires RegistrySafe(orig, Destinations(orig.objects), after.reg) && OthersTold(orig, b.reg, after.reg, f)
    requires forall r | r != f :: r in after.complete <==> r in b.complete
    ensures RunSafe(orig, rank, start, after, rest - {f})
  {
    hide Destinations, Safe, RegistrySafe, OthersTold, Seen, SameBeyond, Extension, Roots, R.Ready, Marked;
    RunHas(orig, rank, start, b, rest);
    StayerPoint(orig, rank, start, b, rest, f, after.db);
    OwnMarkIsSafe(orig, rank, b.db, f);
    SafeIsWellFormed(orig, rank, start);
    assert OnlyOne(orig, b, after, {f}, f);
    forall g | g in Destinations(orig.objects)
      ensures DeviceReady(orig, rank, start, after, rest - {f}, g, Destinations(orig.objects)[g])
    {
      assert DeviceReady(orig, rank, start, b, rest, g, Destinations(orig.objects)[g]);
      OthersUnseen(orig, start, b, after, rest, f, {f}, f, g, Destinations(orig.objects)[g]);
    }
  }

  // ----- whole starts -----

  /** Every store the step left behind is safe. */
  ghost predicate StepSafe(orig: Db, rank: Rank, s: Step) {
    Safe(orig, rank, s.after.db) && forall i | 0 <= i < |s.points| :: Safe(orig, rank, s.points[i].db)
  }

  lemma StepHas(plan: Plan, listing: map<Id, Object>, s: Step)
    requires StepOk(listing, s) && StepPlanned(plan, listing, s)
    ensures IsTree(listing, s.rel)
    ensures var (reg, target) := Asked(listing, s.before, s.rel);
            && (forall i | 0 <= i < |s.points| :: TreePoint(listing, s.before, s.rel, target, s.points[i].db))
            && TreePoint(listing, s.before, s.rel, target, s.after.db)
            && (s.outcome == Done ==>
                  s.after == Books(DealtWith(listing, s.before, s.rel, target), reg, s.before.complete + {target}))
            && (s.outcome == Fails ==>
                  && s.after == Books(s.after.db,
                     reg.KeepUnmoved(DeviceOf(listing, s.rel).0, DeviceOf(listing, s.rel).1, s.rel), s.before.complete)
                  && (target == s.rel ==> s.after.db == s.before.db))
  {
    hide Asked, TreePoint, DealtWith, TreeWrite, RefusesRoot, SticksAtDelete, CopiedTree, DeviceId.Registry.KeepUnmoved;
  }

  lemma MoverStep(orig: Db, rank: Rank, start: Db, rest: set<string>, plan: Plan, s: Step, f: string)
    requires MoverIsNext(orig, rank, start, s.before, rest, s.rel, f)
    requires StepOk(start.objects, s) && StepPlanned(plan, start.objects, s)
    ensures StepSafe(orig, rank, s)
    ensures s.outcome != Crash ==> RunSafe(orig, rank, start, s.after, rest - {s.rel})
  {
    hide MoverIsNext, RunSafe, Asked, Safe, TreePoint, DealtWith, DeviceId.Registry.KeepUnmoved, StepOk, StepPlanned;
    hide Destinations;
    StepHas(plan, start.objects, s);
    assert f in Destinations(orig.objects) && IsTree(orig.objects, f) by {
      MoverMoving(orig, rank, start, s.before, rest, s.rel, f);
    }
    MoverPointIsSafe(orig, rank, start, s.before, rest, s.rel, f, s.after.db);
    forall i | 0 <= i < |s.points| ensures Safe(orig, rank, s.points[i].db) {
      MoverPointIsSafe(orig, rank, start, s.before, rest, s.rel, f, s.points[i].db);
    }
    if s.outcome == Done { MoverDone(orig, rank, start, s.before, s.after, rest, s.rel, f); }
    if s.outcome == Fails { MoverRefused(orig, rank, start, s.before, s.after, rest, s.rel, f); }
  }

  lemma MoverMoving(orig: Db, rank: Rank, start: Db, b: Books, rest: set<string>, rel: string, f: string)
    requires MoverIsNext(orig, rank, start, b, rest, rel, f)
    ensures f in Destinations(orig.objects) && IsTree(orig.objects, f)
  {
    hide Destinations, RunSafe;
  }

  lemma StayerStep(orig: Db, rank: Rank, start: Db, rest: set<string>, plan: Plan, s: Step)
    requires StayerIsNext(orig, rank, start, s.before, rest, s.rel)
    requires StepOk(start.objects, s) && StepPlanned(plan, start.objects, s)
    ensures StepSafe(orig, rank, s)
    ensures s.outcome != Crash ==> RunSafe(orig, rank, start, s.after, rest - {s.rel})
  {
    hide StayerIsNext, RunSafe, Asked, Safe, DeviceId.Registry.KeepUnmoved, StepOk, StepPlanned, Destinations;
    hide Extension, OthersTold, RegistrySafe;
    StepHas(plan, start.objects, s);
    assert IsTree(orig.objects, s.rel) by { StayerStays(orig, rank, start, s.before, rest, s.rel); }
    StayerAsked(orig, rank, start, s.before, rest, s.rel);
    forall d | d == s.before.db || d == Extension(s.before.db, s.rel) ensures Safe(orig, rank, d) {
      StayerPoint(orig, rank, start, s.before, rest, s.rel, d);
    }
    if s.outcome != Crash { StayerSteps(orig, rank, start, s.before, s.after, rest, s.rel); }
  }

  lemma StayerStays(orig: Db, rank: Rank, start: Db, b: Books, rest: set<string>, f: string)
    requires StayerIsNext(orig, rank, start, b, rest, f)
    ensures IsTree(orig.objects, f)
  {
    hide Destinations, RunSafe;
  }

  /**
   * Whatever happens to the next tree: every store it passes is safe, and unless the process died the run goes on
   * safely.
   */
  lemma StepIsSafe(orig: Db, rank: Rank, start: Db, rest: set<string>, plan: Plan, s: Step)
    requires RunSafe(orig, rank, start, s.before, rest) && IsOrder(rank) && IsEarliest(rank, rest, s.rel)
    requires StepOk(start.objects, s) && StepPlanned(plan, start.objects, s)
    ensures StepSafe(orig, rank, s)
    ensures s.outcome != Crash ==> RunSafe(orig, rank, start, s.after, rest - {s.rel})
  {
    hide RunSafe, Safe, StepOk, StepPlanned, Destinations, IsOrder, StepSafe;
    RunHas(orig, rank, start, s.before, rest);
    StepHas(plan, start.objects, s);
    var f := OwnerIn(orig, rank, start, s.rel);
    if f in Destinations(orig.objects) {
      MoverStep(orig, rank, start, rest, plan, s, f);
    } else {
      StayerStep(orig, rank, start, rest, plan, s);
    }
  }

  /** The run before step `i`, with everything it has passed. */
  lemma {:induction false} RunIsSafe(orig: Db, rank: Rank, s: Start, i: nat)
    requires Safe(orig, rank, s.before) && IsOrder(rank) && IsStart(rank, s) && i <= |s.steps|
    ensures (forall k | 0 <= k < i :: s.steps[k].outcome != Crash) ==>
              RunSafe(orig, rank, s.before, BooksAt(s.first, s.steps, i), RestAt(s.waiting, s.steps, i))
    ensures forall k | 0 <= k < i :: StepSafe(orig, rank, s.steps[k])
  {
    hide Safe, IsStart, IsSeeded, IsOrder, RunSafe, StepSafe, StepOk, StepPlanned, IsEarliest;
    if i == 0 {
      assert IsSeeded(s) by { StartHas(rank, s); }
      StartIsSafe(orig, rank, s);
    } else {
      RunIsSafe(orig, rank, s, i - 1);
      forall k | 0 <= k < i - 1 ensures s.steps[k].outcome != Crash { StepAt(rank, s, k); }
      StepAt(rank, s, i - 1);
      StepIsSafe(orig, rank, s.before, RestAt(s.waiting, s.steps, i - 1), s.plan, s.steps[i - 1]);
    }
  }

  /** Every store a start passed, and the one it left, has everything. */
  ghost predicate StartKeeps(orig: Db, s: Start) {
    Kept(orig, s.end.db) && forall k | 0 <= k < |AllPoints(s.steps)| :: Kept(orig, AllPoints(s.steps)[k].db)
  }

  lemma StartKeepsAll(orig: Db, rank: Rank, s: Start)
    requires Safe(orig, rank, s.before) && IsOrder(rank) && IsStart(rank, s)
    ensures Safe(orig, rank, s.end.db) && StartKeeps(orig, s)
  {
    hide Safe, IsStart, IsSeeded, IsOrder, RunSafe, AllPoints, RestAt, Kept;
    RunIsSafe(orig, rank, s, |s.steps|);
    StartHas(rank, s);
    AllPointsHave(s.steps, (d: Db) => Safe(orig, rank, d));
    if s.steps == [] { assert s.end.db == s.before by { SeededDb(s); } }
    SafeIsKept(orig, rank, s.end.db);
    forall k | 0 <= k < |AllPoints(s.steps)| ensures Kept(orig, AllPoints(s.steps)[k].db) {
      SafeIsKept(orig, rank, AllPoints(s.steps)[k].db);
    }
  }

  lemma {:induction false} HistoryKeepsAll(orig: Db, rank: Rank, starts: seq<Start>, i: nat)
    requires WellFormed(orig) && Apart(orig.objects) && IsOrder(rank) && IsHistory(orig, rank, starts) && i <= |starts|
    ensures Safe(orig, rank, StoreAt(orig, starts, i))
    ensures forall k | 0 <= k < i :: StartKeeps(orig, starts[k])
  {
    hide WellFormed, Apart, IsOrder, Safe, StartKeeps, IsStart;
    if i == 0 {
      OrigIsSafe(orig, rank);
    } else {
      HistoryKeepsAll(orig, rank, starts, i - 1);
      StartKeepsAll(orig, rank, starts[i - 1]);
    }
  }
}
