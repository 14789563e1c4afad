/** Starts of the migration that die at any write, or run to their end: what they keep, and that they converge. */
module DeviceIdMigration {
  import opened Options
  import opened ObjectIds
  import opened DeviceMove
  import opened MoveInvariant
  import opened MigrationRun
  import DeviceId

  // ----- the registry of an interrupted store -----

  /** The registry knows devices of the original store only, each under its home. */
  ghost predicate RegistryOk(orig: Db, moves: map<string, string>, reg: DeviceId.Registry) {
    && reg.Inverse()
    && forall k | k in reg.byKey :: exists f :: Owns(orig, f, k) && reg.byKey[k].prefix == Home(moves, f)
  }

  ghost predicate Recorded(orig: Db, reg: DeviceId.Registry, f: string) {
    IsTree(orig.objects, f) && KeyOf(orig.objects, f) in reg.byKey
  }

  /** Nothing that was recorded is forgotten. */
  ghost predicate Keeps(orig: Db, reg: DeviceId.Registry, after: DeviceId.Registry) {
    forall g | Recorded(orig, reg, g) :: Recorded(orig, after, g)
  }

  /** Every device whose home is in the set is recorded. */
  ghost predicate HomesRecorded(orig: Db, moves: map<string, string>, reg: DeviceId.Registry, homes: set<string>) {
    forall g | IsTree(orig.objects, g) && Home(moves, g) in homes :: Recorded(orig, reg, g)
  }

  lemma HomesDiffer(orig: Db, moves: map<string, string>, f: string, g: string)
    requires MovesOk(orig, moves) && IsTree(orig.objects, f) && IsTree(orig.objects, g)
    requires Home(moves, f) == Home(moves, g)
    ensures f == g
  {
    OriginalIsNoTarget(orig, moves, f);
    OriginalIsNoTarget(orig, moves, g);
    assert f in moves ==> moves[f] in Targets(moves);
    assert g in moves ==> moves[g] in Targets(moves);
  }

  lemma RecordedHome(orig: Db, moves: map<string, string>, reg: DeviceId.Registry, f: string)
    requires WellFormed(orig) && RegistryOk(orig, moves, reg) && IsTree(orig.objects, f) && Recorded(orig, reg, f)
    ensures reg.byKey[KeyOf(orig.objects, f)].prefix == Home(moves, f)
  {
    var g :| Owns(orig, g, KeyOf(orig.objects, f)) && reg.byKey[KeyOf(orig.objects, f)].prefix == Home(moves, g);
  }

  /** A held prefix is the home of a recorded device. */
  lemma HeldHome(orig: Db, moves: map<string, string>, reg: DeviceId.Registry, f: string)
    requires WellFormed(orig) && MovesOk(orig, moves) && RegistryOk(orig, moves, reg) && IsTree(orig.objects, f)
    ensures Home(moves, f) in reg.byPrefix <==> Recorded(orig, reg, f)
  {
    if Recorded(orig, reg, f) {
      RecordedHome(orig, moves, reg, f);
    }
    if Home(moves, f) in reg.byPrefix {
      var k := reg.byPrefix[Home(moves, f)].Key();
      var g :| Owns(orig, g, k) && reg.byKey[k].prefix == Home(moves, g);
      HomesDiffer(orig, moves, f, g);
    }
  }

  /** Seeding a device under its home always works out, whether it was recorded before or not. */
  lemma SeedHome(orig: Db, moves: map<string, string>, reg: DeviceId.Registry, f: string, sku: string, deviceId: string)
    requires WellFormed(orig) && MovesOk(orig, moves) && RegistryOk(orig, moves, reg) && IsTree(orig.objects, f)
    requires DeviceId.MapKey(sku, deviceId) == KeyOf(orig.objects, f)
    ensures var (after, recorded) := reg.Seed(sku, deviceId, Home(moves, f));
            && recorded && RegistryOk(orig, moves, after) && Recorded(orig, after, f) && Keeps(orig, reg, after)
  {
    HeldHome(orig, moves, reg, f);
    if Recorded(orig, reg, f) { RecordedHome(orig, moves, reg, f); }
    DeviceId.SeedKeepsInverse(reg, sku, deviceId, Home(moves, f));
    var (after, _) := reg.Seed(sku, deviceId, Home(moves, f));
    forall k | k in after.byKey ensures exists g :: Owns(orig, g, k) && after.byKey[k].prefix == Home(moves, g) {
      if k in reg.byKey {
        var g :| Owns(orig, g, k) && reg.byKey[k].prefix == Home(moves, g);
        assert after.byKey[k] == reg.byKey[k];
      } else {
        assert Owns(orig, f, k);
      }
    }
  }

  /** Every tree of an interrupted store belongs to one original tree: the old one, or its copy. */
  lemma OwnerOf(orig: Db, db: Db, moves: map<string, string>, r: string) returns (f: string)
    requires Inv(orig, db, moves) && IsTree(db.objects, r)
    ensures IsTree(orig.objects, f) && (r == f || (f in moves && r == moves[f]))
    ensures db.objects[Root(r)].sku == orig.objects[Root(f)].sku
            && db.objects[Root(r)].deviceId == orig.objects[Root(f)].deviceId
    ensures KeyOf(db.objects, r) == KeyOf(orig.objects, f)
    ensures Marked(db.objects, r) ==> r == Home(moves, f)
    ensures if r == f && f in moves then !Marked(db.objects, r) && db.objects[Root(r)].movingTo == Some(moves[f])
            else db.objects[Root(r)].movingTo == None
  {
    hide AliasInv, WellFormed, Marked;
    if r in Targets(moves) {
      f :| f in moves && moves[f] == r;
      CopyNames(orig, db, moves, f);
    } else {
      f := r;
      if f in moves { OldRootNames(orig, db, moves, f); } else { RestNames(orig, db, moves, f); }
    }
  }

  lemma CopyNames(orig: Db, db: Db, moves: map<string, string>, f: string)
    requires Inv(orig, db, moves) && f in moves && Root(moves[f]) in db.objects
    ensures IsTree(orig.objects, f) && moves[f] != f
    ensures var now, was := db.objects[Root(moves[f])], orig.objects[Root(f)];
            now.sku == was.sku && now.deviceId == was.deviceId && now.movingTo == None
  {
    OtherRoots(orig, moves, f);
    hide RestInv, AliasInv, WellFormed, OldTree, MovesOk, Complete;
    assert TreeInv(orig, db, f, moves[f]);
    assert Retree(Root(moves[f]), f) == Root(f) && InTree(Root(moves[f]), moves[f]);
  }

  lemma OldRootNames(orig: Db, db: Db, moves: map<string, string>, f: string)
    requires Inv(orig, db, moves) && f in moves && Root(f) in db.objects
    ensures IsTree(orig.objects, f) && !Marked(db.objects, f)
    ensures var now, was := db.objects[Root(f)], orig.objects[Root(f)];
            now.sku == was.sku && now.deviceId == was.deviceId && now.movingTo == Some(moves[f])
  {
    hide RestInv, AliasInv, WellFormed, NewTree, Complete;
    assert TreeInv(orig, db, f, moves[f]) && InTree(Root(f), f);
  }

  lemma RestNames(orig: Db, db: Db, moves: map<string, string>, r: string)
    requires Inv(orig, db, moves) && IsTree(db.objects, r) && r !in moves && r !in Targets(moves)
    ensures IsTree(orig.objects, r)
    ensures var now, was := db.objects[Root(r)], orig.objects[Root(r)];
            now.sku == was.sku && now.deviceId == was.deviceId && now.movingTo == None
  {
    hide AliasInv, TreeInv, TargetsFree, MovesOk;
    assert !Concerned(Root(r), moves);
  }

  /** Recording what the store says of a marked tree, or of a journal, is recording a home. */
  lemma SeedKnown(orig: Db, db: Db, moves: map<string, string>, reg: DeviceId.Registry, homes: set<string>, r: string,
      prefix: string)
    requires Inv(orig, db, moves) && RegistryOk(orig, moves, reg) && IsTree(db.objects, r)
             && HomesRecorded(orig, moves, reg, homes)
    requires if Marked(db.objects, r) then prefix == r else JournalOf(db.objects[Root(r)]) == Some(prefix)
    ensures var o := db.objects[Root(r)];
            var (after, recorded) := reg.Seed(o.sku.value, o.deviceId.value, prefix);
            recorded && RegistryOk(orig, moves, after) && Keeps(orig, reg, after)
                && HomesRecorded(orig, moves, after, homes + {prefix})
  {
    hide RestInv, TreeInv, AliasInv, RegistryOk, TargetsFree, DeviceId.Registry.Seed, Recorded;
    var f := OwnerOf(orig, db, moves, r);
    if f in moves { OtherRoots(orig, moves, f); }
    SeedHome(orig, moves, reg, f, db.objects[Root(r)].sku.value, db.objects[Root(r)].deviceId.value);
    forall g | IsTree(orig.objects, g) && Home(moves, g) == prefix ensures g == f { HomesDiffer(orig, moves, f, g); }
  }

  lemma NothingRecorded(orig: Db, moves: map<string, string>)
    ensures RegistryOk(orig, moves, DeviceId.EMPTY) && HomesRecorded(orig, moves, DeviceId.EMPTY, {})
  {
  }

  function FinalRoots(objects: map<Id, Object>): set<string> {
    set r | r in Roots(objects) && Final(objects, r)
  }

  function InterruptedRoots(objects: map<Id, Object>): set<string> {
    set r | r in Roots(objects) && Interrupted(objects, r)
  }

  function Listed(listed: seq<string>): set<string> {
    set r | r in listed
  }

  /** After the trees with the mark: exactly they are complete, and their devices are recorded. */
  lemma {:induction false} MarkedAreRecorded(orig: Db, db: Db, moves: map<string, string>, listed: seq<string>)
    requires Inv(orig, db, moves) && AreTrees(db.objects, listed)
    ensures var (reg, complete) := MarkedSeeds(db.objects, listed);
            && RegistryOk(orig, moves, reg) && HomesRecorded(orig, moves, reg, complete)
            && complete == set r | r in listed && Final(db.objects, r)
  {
    hide Inv, RegistryOk, HomesRecorded, Keeps, DeviceId.Registry.Seed;
    if listed == [] {
      NothingRecorded(orig, moves);
    } else {
      var n := |listed| - 1;
      MarkedAreRecorded(orig, db, moves, listed[..n]);
      assert forall r :: r in listed <==> r in listed[..n] || r == listed[n];
      if Final(db.objects, listed[n]) {
        var (reg, complete) := MarkedSeeds(db.objects, listed[..n]);
        SeedKnown(orig, db, moves, reg, complete, listed[n], listed[n]);
      }
    }
  }

  /** After the interrupted moves: their targets are recorded too. */
  lemma {:induction false} JournalsAreRecorded(
      orig: Db, db: Db, moves: map<string, string>, listed: seq<string>, seeded: DeviceId.Registry, homes: set<string>)
    requires Inv(orig, db, moves) && AreTrees(db.objects, listed)
    requires RegistryOk(orig, moves, seeded) && HomesRecorded(orig, moves, seeded, homes)
    ensures var reg := JournalSeeds(db.objects, listed, seeded);
            && RegistryOk(orig, moves, reg)
            && HomesRecorded(orig, moves, reg,
               homes + JournalTargets(db.objects, Listed(listed) * InterruptedRoots(db.objects)))
  {
    hide Inv, RegistryOk, HomesRecorded, Keeps, DeviceId.Registry.Seed;
    if listed == [] {
      assert homes + JournalTargets(db.objects, Listed(listed) * InterruptedRoots(db.objects)) == homes;
    } else {
      var n := |listed| - 1;
      var r, before := listed[n],
          homes + JournalTargets(db.objects, Listed(listed[..n]) * InterruptedRoots(db.objects));
      JournalsAreRecorded(orig, db, moves, listed[..n], seeded, homes);
      assert Listed(listed) == Listed(listed[..n]) + {r};
      assert r in Roots(db.objects) by { assert Root(r) in db.objects; }
      if Interrupted(db.objects, r) {
        SeedKnown(orig, db, moves, JournalSeeds(db.objects, listed[..n], seeded), before, r,
            JournalOf(db.objects[Root(r)]).value);
        assert before + {JournalOf(db.objects[Root(r)]).value}
            == homes + JournalTargets(db.objects, Listed(listed) * InterruptedRoots(db.objects));
      } else {
        assert Listed(listed) * InterruptedRoots(db.objects) == Listed(listed[..n]) * InterruptedRoots(db.objects);
      }
    }
  }

  function JournalTargets(objects: map<Id, Object>, roots: set<string>): set<string>
    requires roots <= InterruptedRoots(objects)
  {
    set r | r in roots :: JournalOf(objects[Root(r)]).value
  }

  lemma JournalsNameHomes(orig: Db, db: Db, moves: map<string, string>)
    requires Inv(orig, db, moves)
    ensures forall f | f in moves :: IsTree(orig.objects, f)
    ensures forall f | f in moves && f in Roots(db.objects) ::
              && !Marked(db.objects, f) && JournalOf(db.objects[Root(f)]) == Some(Home(moves, f)) && Home(moves, f) != f
  {
    hide RestInv, TreeInv, AliasInv;
    forall f | f in moves && f in Roots(db.objects)
      ensures !Marked(db.objects, f) && JournalOf(db.objects[Root(f)]) == Some(Home(moves, f)) && Home(moves, f) != f
    {
      var g := OwnerOf(orig, db, moves, f);
      OtherRoots(orig, moves, f);
      OtherRoots(orig, moves, g);
    }
  }

  /** A tree is done: gone and complete at its target, or marked where it stands. */
  ghost predicate Finished(db: Db, moves: map<string, string>, f: string) {
    if f in moves then TreeIds(db.objects, f) == {} && Marked(db.objects, moves[f]) else Marked(db.objects, f)
  }

  /** An old root is gone only with its whole tree, and then the move is done. */
  lemma GoneIsFinished(orig: Db, db: Db, moves: map<string, string>, f: string)
    requires Inv(orig, db, moves) && IsTree(orig.objects, f) && Root(f) !in db.objects
    ensures f in moves && Finished(db, moves, f)
  {
    OriginalIsNoTarget(orig, moves, f);
    assert f !in moves ==> !Concerned(Root(f), moves);
    assert TreeInv(orig, db, f, moves[f]);
    assert Lost(orig, db, f);
  }

  /** What stands under a home is its device's tree. */
  lemma HomeIsTree(orig: Db, db: Db, moves: map<string, string>, f: string)
    requires Inv(orig, db, moves) && IsTree(orig.objects, f) && Root(Home(moves, f)) in db.objects
    ensures IsTree(db.objects, Home(moves, f))
  {
    if f in moves {
      assert TreeInv(orig, db, f, moves[f]);
      assert Retree(Root(moves[f]), f) == Root(f);
    } else {
      OriginalIsNoTarget(orig, moves, f);
      assert !Concerned(Root(f), moves);
    }
  }

  lemma OldRootIsTree(orig: Db, db: Db, moves: map<string, string>, f: string)
    requires Inv(orig, db, moves) && IsTree(orig.objects, f) && Root(f) in db.objects
    ensures IsTree(db.objects, f) && (f in moves ==> !Marked(db.objects, f))
    ensures f !in moves ==> db.objects[Root(f)].movingTo == None
  {
    if f in moves {
      assert TreeInv(orig, db, f, moves[f]);
    } else {
      OriginalIsNoTarget(orig, moves, f);
      assert !Concerned(Root(f), moves);
    }
  }

  // ----- the run over the pending trees -----

  ghost predicate AllKnown(orig: Db, db: Db, moves: map<string, string>, reg: DeviceId.Registry, pending: set<string>) {
    forall f | IsTree(orig.objects, f) && (f in moves || Marked(db.objects, f) || f !in pending) ::
        Recorded(orig, reg, f)
  }

  ghost predicate CompleteOk(db: Db, complete: set<string>) {
    forall r :: r in complete <==> IsTree(db.objects, r) && Marked(db.objects, r)
  }

  ghost predicate PendingOk(orig: Db, start: Db, db: Db, pending: set<string>) {
    && pending <= Roots(start.objects)
    && forall r | r in pending :: Root(r) in db.objects && (IsTree(orig.objects, r) ==> !Marked(db.objects, r))
  }

  ghost predicate AllDone(orig: Db, db: Db, moves: map<string, string>, pending: set<string>) {
    forall f | IsTree(orig.objects, f) && f !in pending :: Finished(db, moves, f)
  }

  /** Targets are only added, and only for trees already dealt with. */
  ghost predicate Grown(moves0: map<string, string>, moves: map<string, string>, pending: set<string>) {
    && (forall f | f in moves0 :: f in moves && moves[f] == moves0[f])
    && (forall f | f in moves && f in pending :: f in moves0)
  }

  ghost predicate RunInv(orig: Db, start: Db, moves0: map<string, string>, db: Db, moves: map<string, string>,
                         reg: DeviceId.Registry, complete: set<string>, pending: set<string>)
  {
    && Inv(orig, start, moves0) && Inv(orig, db, moves)
    && RegistryOk(orig, moves, reg) && AllKnown(orig, db, moves, reg, pending)
    && CompleteOk(db, complete) && PendingOk(orig, start, db, pending)
    && AllDone(orig, db, moves, pending) && Grown(moves0, moves, pending)
  }

  lemma MarkedIsFinal(orig: Db, db: Db, moves: map<string, string>)
    requires Inv(orig, db, moves)
    ensures CompleteOk(db, FinalRoots(db.objects))
  {
    hide Inv;
    forall r ensures r in FinalRoots(db.objects) <==> IsTree(db.objects, r) && Marked(db.objects, r) {
      if IsTree(db.objects, r) && Marked(db.objects, r) {
        var f := OwnerOf(orig, db, moves, r);
        assert Root(r) in db.objects;
      }
    }
  }

  /** A tree that is not pending at the start is finished, and its home is among those the seeding recorded. */
  lemma StartHomes(orig: Db, db: Db, moves: map<string, string>, f: string)
    requires Inv(orig, db, moves) && IsTree(orig.objects, f)
    ensures var complete := FinalRoots(db.objects);
            var pending := Roots(db.objects) - complete;
            && (f in moves || Marked(db.objects, f) || f !in pending ==>
                  Home(moves, f) in complete + JournalTargets(db.objects, InterruptedRoots(db.objects)))
            && (f !in pending ==> Finished(db, moves, f))
            && (f in pending ==> !Marked(db.objects, f))
  {
    hide Inv;
    MarkedIsFinal(orig, db, moves);
    JournalsNameHomes(orig, db, moves);
    if Root(f) in db.objects {
      OldRootIsTree(orig, db, moves, f);
      if f in moves { assert f in Roots(db.objects) && f in InterruptedRoots(db.objects); }
    } else {
      GoneIsFinished(orig, db, moves, f);
      HomeIsTree(orig, db, moves, f);
    }
  }

  lemma RunStarts(orig: Db, db: Db, moves: map<string, string>, reg: DeviceId.Registry)
    requires Inv(orig, db, moves) && RegistryOk(orig, moves, reg)
    requires HomesRecorded(orig, moves, reg,
             FinalRoots(db.objects) + JournalTargets(db.objects, InterruptedRoots(db.objects)))
    ensures RunInv(orig, db, moves, db, moves, reg, FinalRoots(db.objects), Roots(db.objects) - FinalRoots(db.objects))
  {
    hide Inv, RegistryOk;
    MarkedIsFinal(orig, db, moves);
    forall f | IsTree(orig.objects, f)
      ensures var pending := Roots(db.objects) - FinalRoots(db.objects);
              && (f in moves || Marked(db.objects, f) || f !in pending ==> Recorded(orig, reg, f))
              && (f !in pending ==> Finished(db, moves, f))
              && (f in pending ==> !Marked(db.objects, f))
    {
      StartHomes(orig, db, moves, f);
    }
  }

  // ----- which target a pending tree gets -----

  /** The targets once `f` was told `target`. */
  function Told(moves: map<string, string>, f: string, target: string): map<string, string> {
    if f in moves || target == f then moves else moves[f := target]
  }

  ghost predicate FreshTarget(orig: Db, moves: map<string, string>, f: string, target: string) {
    RootForm(target) && NothingIn(orig, target) && target !in Targets(moves)
  }

  /** A device that is not recorded gets an id nothing holds, or its own. */
  lemma FreshIdIsFree(orig: Db, db: Db, moves: map<string, string>, reg: DeviceId.Registry, pending: set<string>,
      f: string, target: string)
    requires Inv(orig, db, moves) && RegistryOk(orig, moves, reg) && AllKnown(orig, db, moves, reg, pending)
    requires IsTree(orig.objects, f) && f !in moves && !Marked(db.objects, f)
    requires DeviceId.IsCandidate(orig.objects[Root(f)].sku.value, orig.objects[Root(f)].deviceId.value, target)
    requires target !in reg.byPrefix && target != f
    ensures FreshTarget(orig, moves, f, target) && !Marked(orig.objects, f)
  {
    hide TreeInv, AliasInv, RegistryOk;
    DeviceId.CandidateForm(orig.objects[Root(f)].sku.value, orig.objects[Root(f)].deviceId.value, target);
    OriginalIsNoTarget(orig, moves, f);
    assert !Concerned(Root(f), moves);
    assert !Marked(orig.objects, f);
    if target in Targets(moves) {
      var g :| g in moves && moves[g] == target;
      HeldHome(orig, moves, reg, g);
    }
    if IsTree(orig.objects, target) && Marked(orig.objects, target) {
      OriginalIsNoTarget(orig, moves, target);
      assert target !in moves;
      assert !Concerned(Root(target), moves);
      assert Marked(db.objects, target);
      HeldHome(orig, moves, reg, target);
    }
  }

  /** A fresh target becomes the device's home, and the registry stays right. */
  lemma ToldKeepsRegistry(orig: Db, moves: map<string, string>, reg: DeviceId.Registry, f: string, sku: string,
      deviceId: string)
    requires WellFormed(orig) && RegistryOk(orig, moves, reg) && IsTree(orig.objects, f)
             && (f in moves ==> Recorded(orig, reg, f))
    requires DeviceId.MapKey(sku, deviceId) == KeyOf(orig.objects, f)
    ensures var (after, target) := reg.PrefixFor(sku, deviceId);
            && RegistryOk(orig, Told(moves, f, target), after) && Keeps(orig, reg, after) && Recorded(orig, after, f)
            && target == Home(Told(moves, f, target), f)
            && (f !in moves && target != f ==> target !in reg.byPrefix && DeviceId.IsCandidate(sku, deviceId, target))
  {
    DeviceId.FreshIdIsRecorded(reg, sku, deviceId);
    hide DeviceId.Registry.PrefixFor, DeviceId.IsCandidate, DeviceId.Registry.Inverse;
    if Recorded(orig, reg, f) {
      RecordedHome(orig, moves, reg, f);
    } else {
      var (after, target) := reg.PrefixFor(sku, deviceId);
      NewEntryKeeps(orig, moves, reg, after, f, DeviceId.Entry(sku, deviceId, target));
    }
  }

  lemma NewEntryKeeps(orig: Db, moves: map<string, string>, reg: DeviceId.Registry, after: DeviceId.Registry,
      f: string, e: DeviceId.Entry)
    requires RegistryOk(orig, moves, reg) && after.Inverse()
    requires IsTree(orig.objects, f) && f !in moves && KeyOf(orig.objects, f) !in reg.byKey
    requires after.byKey == reg.byKey[KeyOf(orig.objects, f) := e]
    ensures RegistryOk(orig, Told(moves, f, e.prefix), after) && Keeps(orig, reg, after)
    ensures e.prefix == Home(Told(moves, f, e.prefix), f)
  {
    hide DeviceId.Registry.Inverse, IsTree;
    var later, key := Told(moves, f, e.prefix), KeyOf(orig.objects, f);
    forall k | k in after.byKey ensures exists g :: Owns(orig, g, k) && after.byKey[k].prefix == Home(later, g) {
      if k == key {
        assert Owns(orig, f, k);
      } else {
        var g :| Owns(orig, g, k) && reg.byKey[k].prefix == Home(moves, g);
        assert Home(later, g) == Home(moves, g);
      }
    }
  }

  /** What the registry answers for a pending tree. */
  lemma TargetOf(orig: Db, start: Db, moves0: map<string, string>, db: Db, moves: map<string, string>,
                 reg: DeviceId.Registry, complete: set<string>, pending: set<string>, r: string)
    returns (f: string)
    requires RunInv(orig, start, moves0, db, moves, reg, complete, pending) && r in pending
    ensures IsTree(start.objects, r)
    ensures var o := start.objects[Root(r)];
            var (after, target) := reg.PrefixFor(o.sku.value, o.deviceId.value);
            && IsTree(orig.objects, f) && (r == f || (f in moves && r == moves[f]))
            && RegistryOk(orig, Told(moves, f, target), after) && Keeps(orig, reg, after) && Recorded(orig, after, f)
            && target == Home(Told(moves, f, target), f)
            && (f !in moves && target != f ==> FreshTarget(orig, moves, f, target) && !Marked(orig.objects, f))
            && (r == f ==> JournalOf(o) == (if f in moves then Some(target) else None) && !Marked(db.objects, f))
  {
    JournalsNameHomes(orig, start, moves0);
    hide Inv, RegistryOk, FreshTarget, CompleteOk;
    f := OwnerOf(orig, start, moves0, r);
    var o := start.objects[Root(r)];
    var (after, target) := reg.PrefixFor(o.sku.value, o.deviceId.value);
    InvIsWellFormed(orig, db, moves);
    ToldKeepsRegistry(orig, moves, reg, f, o.sku.value, o.deviceId.value);
    if f !in moves && target != f {
      FreshIdIsFree(orig, db, moves, reg, pending, f, target);
    }
  }

  lemma InvIsWellFormed(orig: Db, db: Db, moves: map<string, string>)
    requires Inv(orig, db, moves)
    ensures WellFormed(orig) && MovesOk(orig, moves)
  {
  }

  // ----- a pending tree is dealt with -----

  /** Of all trees only `r` got the mark, and no emptied tree came back. */
  ghost predicate Settled(db: Db, later: Db, r: string) {
    && (forall g :: Marked(later.objects, g) && IsTree(later.objects, g) <==>
        (Marked(db.objects, g) && IsTree(db.objects, g)) || g == r)
    && (forall g | Marked(later.objects, g) :: Marked(db.objects, g) || g == r)
    && (forall g | Marked(db.objects, g) :: Marked(later.objects, g))
    && (forall g | TreeIds(db.objects, g) == {} && g != r :: TreeIds(later.objects, g) == {})
  }

  lemma MarkFacts(db: Db, r: string)
    requires IsTree(db.objects, r)
    ensures var marked := Extension(db, r);
            && Settled(db, marked, r)
            && Marked(marked.objects, r)
            && (forall g | Root(g) in db.objects :: Root(g) in marked.objects)
  {
  }

  lemma MarkInv(orig: Db, db: Db, moves: map<string, string>, f: string)
    requires Inv(orig, db, moves) && IsTree(orig.objects, f) && Root(Home(moves, f)) in db.objects
    ensures Inv(orig, Extension(db, Home(moves, f)), moves)
  {
    hide Inv;
    if f in moves { MarkTargetKeeps(orig, db, moves, f); } else { MarkOwnKeeps(orig, db, moves, f); }
  }

  /** The books after the device of `f` was settled at its home `r`. */
  lemma SettledBooks(orig: Db, db: Db, later: Db, moves: map<string, string>, reg: DeviceId.Registry,
      after: DeviceId.Registry,
                     complete: set<string>, pending: set<string>, f: string, r: string)
    requires WellFormed(orig) && MovesOk(orig, moves) && IsTree(orig.objects, f) && r == Home(moves, f)
    requires forall g | IsTree(orig.objects, g) && (g in moves || Marked(db.objects, g) || g !in pending) && g != f ::
             Recorded(orig, reg, g)
    requires forall g | IsTree(orig.objects, g) && g !in pending ::
             Finished(db, moves, g) || (g == f && Finished(later, moves, f))
    requires CompleteOk(db, complete) && Keeps(orig, reg, after) && Recorded(orig, after, f)
    requires Settled(db, later, r)
    ensures AllKnown(orig, later, moves, after, pending)
    ensures CompleteOk(later, complete + {r})
    ensures AllDone(orig, later, moves, pending)
  {
    forall g | IsTree(orig.objects, g) && Home(moves, g) == r ensures g == f { HomesDiffer(orig, moves, g, f); }
    forall g | g in moves ensures g != r {
      OtherRoots(orig, moves, g);
      OriginalIsNoTarget(orig, moves, g);
      assert f in moves ==> r in Targets(moves);
    }
    hide WellFormed, MovesOk, IsTree, Marked, Recorded, TreeIds;
  }

  lemma MarkBooks(orig: Db, db: Db, moves: map<string, string>, reg: DeviceId.Registry, complete: set<string>,
      pending: set<string>,
                  f: string, r: string, after: DeviceId.Registry, marked: Db)
    requires WellFormed(orig) && MovesOk(orig, moves) && IsTree(orig.objects, f) && r == Home(moves, f)
    requires AllKnown(orig, db, moves, reg, pending) && CompleteOk(db, complete) && AllDone(orig, db, moves, pending)
    requires Keeps(orig, reg, after) && Recorded(orig, after, f)
    requires Settled(db, marked, r) && Marked(marked.objects, r)
    ensures AllKnown(orig, marked, moves, after, pending - {r})
    ensures CompleteOk(marked, complete + {r})
    ensures AllDone(orig, marked, moves, pending - {r})
  {
    if f in moves { TargetIsNoTree(orig, moves, f); }
    hide IsTree, TreeIds, Marked, MovesOk, WellFormed, CompleteOk, Recorded, Keeps, Settled;
    SettledBooks(orig, db, marked, moves, reg, after, complete, pending - {r}, f, r);
  }

  /** The mark where the tree stands. */
  lemma MarkStep(orig: Db, start: Db, moves0: map<string, string>, db: Db, moves: map<string, string>,
                 reg: DeviceId.Registry, complete: set<string>, pending: set<string>, r: string, f: string,
                     after: DeviceId.Registry)
    requires RunInv(orig, start, moves0, db, moves, reg, complete, pending) && r in pending
    requires IsTree(orig.objects, f) && r == Home(moves, f)
    requires RegistryOk(orig, moves, after) && Keeps(orig, reg, after) && Recorded(orig, after, f)
    ensures RunInv(orig, start, moves0, Extension(db, r), moves, after, complete + {r}, pending - {r})
  {
    hide Inv, RegistryOk, CompleteOk, Recorded, Keeps, AllKnown, AllDone, Settled;
    InvIsWellFormed(orig, db, moves);
    MarkInv(orig, db, moves, f);
    HomeIsTree(orig, db, moves, f);
    MarkFacts(db, r);
    hide Extension;
    MarkBooks(orig, db, moves, reg, complete, pending, f, r, after, Extension(db, r));
    PendingShrinks(orig, start, db, Extension(db, r), pending, r, r);
  }

  /** Every point of the move of a journaled tree keeps the invariant. */
  lemma MoveCovered(orig: Db, db: Db, f: string, movingTo: Option<string>, t: string, fill: bool,
      moves: map<string, string>, p: Db -> bool)
    requires forall d | Inv(orig, d, moves) :: p(d)
    requires f in moves && moves[f] == t
    requires var base := Journaled(db, f, movingTo, t, fill);
             Inv(orig, base, moves) && Root(f) in base.objects && fill == Marked(base.objects, t)
    ensures CoversMove(p, db, f, movingTo, t, fill)
  {
    hide Inv, DeleteOrder, Journaled;
    var base := Journaled(db, f, movingTo, t, fill);
    var job := Resumed(base, f, t);
    forall stage | job.Reaches(stage) ensures p(job.At(stage)) {
      CopyKeeps(orig, base, moves, f, stage);
    }
    CopyCompletes(orig, base, moves, f);
    hide Job.Copied, Job.At;
    forall gone | DeleteOrder(job.Copied(), f, gone) ensures p(Deleted(job.Copied(), gone)) {
      DeleteKeeps(orig, job.Copied(), moves, f, gone);
    }
  }

  /** After the move: the old tree gone, the new one marked, every other tree as it was. */
  lemma MoveSettles(orig: Db, db: Db, f: string, movingTo: Option<string>, t: string, fill: bool,
      moves: map<string, string>)
    requires f in moves && moves[f] == t
    requires var base := Journaled(db, f, movingTo, t, fill);
             Inv(orig, base, moves) && Root(f) in base.objects && fill == Marked(base.objects, t)
    ensures var after := MovedTree(db, f, movingTo, t, fill);
            && Inv(orig, after, moves)
            && TreeIds(after.objects, f) == {} && Marked(after.objects, t) && IsTree(after.objects, t)
            && forall id | !InTree(id, f) && !InTree(id, t) ::
                 (id in after.objects <==> id in db.objects)
                     && (id in db.objects ==> after.objects[id] == db.objects[id])
  {
    hide Inv, NoEnds;
    var base := Journaled(db, f, movingTo, t, fill);
    var job := Resumed(base, f, t);
    InvIsWellFormed(orig, base, moves);
    OtherRoots(orig, moves, f);
    CopyCompletes(orig, base, moves, f);
    CopiedBeyond(job);
    hide Job.Copied, Job.At;
    var copied := job.Copied();
    var gone := TreeIds(copied.objects, f);
    DeleteKeeps(orig, copied, moves, f, gone);
    HomeIsTree(orig, Deleted(copied, gone), moves, f);
  }

  lemma ToldInv(orig: Db, db: Db, moves: map<string, string>, f: string, target: string, movingTo: Option<string>,
      fill: bool)
    requires Inv(orig, db, moves) && IsTree(orig.objects, f) && Root(f) in db.objects && !Marked(db.objects, f)
    requires target == Home(Told(moves, f, target), f) && target != f
    requires f !in moves ==> FreshTarget(orig, moves, f, target) && !Marked(orig.objects, f)
    requires movingTo == if f in moves then Some(target) else None
    requires fill == (IsTree(db.objects, target) && Marked(db.objects, target))
    ensures var base := Journaled(db, f, movingTo, target, fill);
            && Inv(orig, base, Told(moves, f, target)) && Root(f) in base.objects
               && fill == Marked(base.objects, target)
  {
    if f in moves {
      hide Inv;
      if Marked(db.objects, target) { HomeIsTree(orig, db, moves, f); }
    } else {
      NoOverlap(orig, moves, f, target);
      assert Root(target) !in db.objects by { assert !Concerned(Root(target), moves); }
      hide Inv;
      JournalKeeps(orig, db, moves, f, target);
    }
  }

  /** What the rest of the run sees of a move. */
  lemma MoveFacts(db: Db, after: Db, f: string, t: string)
    requires f != t && !Marked(db.objects, f)
    requires TreeIds(after.objects, f) == {} && Marked(after.objects, t) && IsTree(after.objects, t)
    requires forall id | !InTree(id, f) && !InTree(id, t) ::
               (id in after.objects <==> id in db.objects) && (id in db.objects ==> after.objects[id] == db.objects[id])
    ensures Settled(db, after, t)
    ensures forall g | g != f && Root(g) in db.objects :: Root(g) in after.objects
  {
    assert Root(f) in after.objects ==> Root(f) in TreeIds(after.objects, f);
    forall g | TreeIds(db.objects, g) == {} && g != t ensures TreeIds(after.objects, g) == {} {
      if g != f {
        forall id | id in TreeIds(after.objects, g) ensures id in TreeIds(db.objects, g) {}
      }
    }
  }

  /** The store after a pending tree moved. */
  lemma MoveOutcome(orig: Db, db: Db, moves: map<string, string>, f: string, target: string, movingTo: Option<string>,
      fill: bool)
    requires Inv(orig, db, moves) && IsTree(orig.objects, f) && Root(f) in db.objects && !Marked(db.objects, f)
    requires target == Home(Told(moves, f, target), f) && target != f
    requires f !in moves ==> FreshTarget(orig, moves, f, target) && !Marked(orig.objects, f)
    requires movingTo == if f in moves then Some(target) else None
    requires fill == (IsTree(db.objects, target) && Marked(db.objects, target))
    ensures var later, moved := Told(moves, f, target), MovedTree(db, f, movingTo, target, fill);
            && Inv(orig, moved, later) && Settled(db, moved, target)
            && TreeIds(moved.objects, f) == {} && Marked(moved.objects, target)
            && (forall g | g != f && Root(g) in db.objects :: Root(g) in moved.objects)
  {
    hide Inv, FreshTarget;
    var later, moved := Told(moves, f, target), MovedTree(db, f, movingTo, target, fill);
    ToldInv(orig, db, moves, f, target, movingTo, fill);
    hide Journaled;
    MoveSettles(orig, db, f, movingTo, target, fill, later);
    hide MovedTree;
    MoveFacts(db, moved, f, target);
  }

  lemma PendingShrinks(orig: Db, start: Db, db: Db, moved: Db, pending: set<string>, f: string, target: string)
    requires PendingOk(orig, start, db, pending) && Settled(db, moved, target)
             && (IsTree(orig.objects, target) ==> target == f)
    requires forall g | g != f && Root(g) in db.objects :: Root(g) in moved.objects
    ensures PendingOk(orig, start, moved, pending - {f})
  {
    hide IsTree, Marked, TreeIds;
  }

  lemma MoveBooks(orig: Db, db: Db, moves: map<string, string>, reg: DeviceId.Registry, complete: set<string>,
      pending: set<string>,
                  f: string, target: string, after: DeviceId.Registry, moved: Db, later: map<string, string>)
    requires WellFormed(orig) && MovesOk(orig, later) && IsTree(orig.objects, f)
    requires AllKnown(orig, db, moves, reg, pending) && CompleteOk(db, complete) && AllDone(orig, db, moves, pending)
    requires later == Told(moves, f, target) && target == Home(later, f) != f
    requires Keeps(orig, reg, after) && Recorded(orig, after, f)
    requires Settled(db, moved, target) && TreeIds(moved.objects, f) == {} && Marked(moved.objects, target)
    ensures AllKnown(orig, moved, later, after, pending - {f})
    ensures CompleteOk(moved, complete + {target})
    ensures AllDone(orig, moved, later, pending - {f})
  {
    hide IsTree, TreeIds, Marked, MovesOk, WellFormed, CompleteOk, Recorded, Keeps, Settled;
    assert forall g | g != f :: Finished(db, moves, g) <==> Finished(db, later, g);
    SettledBooks(orig, db, moved, later, reg, after, complete, pending - {f}, f, target);
  }

  /** A pending tree moved: the books are right again. */
  lemma MoveStep(orig: Db, start: Db, moves0: map<string, string>, db: Db, moves: map<string, string>,
                 reg: DeviceId.Registry, complete: set<string>, pending: set<string>,
                 f: string, target: string, movingTo: Option<string>, fill: bool, after: DeviceId.Registry)
    requires RunInv(orig, start, moves0, db, moves, reg, complete, pending) && f in pending
    requires IsTree(orig.objects, f) && !Marked(db.objects, f)
    requires var later := Told(moves, f, target);
             RegistryOk(orig, later, after) && Keeps(orig, reg, after) && Recorded(orig, after, f)
                 && target == Home(later, f) && target != f
    requires f !in moves ==> FreshTarget(orig, moves, f, target) && !Marked(orig.objects, f)
    requires movingTo == (if f in moves then Some(target) else None) && fill == (target in complete)
    ensures RunInv(orig, start, moves0, MovedTree(db, f, movingTo, target, fill), Told(moves, f, target), after,
            complete + {target}, pending - {f})
  {
    hide Inv, RegistryOk, Recorded, Keeps, FreshTarget, AllKnown, AllDone, Grown, MovedTree, Settled, TreeIds;
    var later, moved := Told(moves, f, target), MovedTree(db, f, movingTo, target, fill);
    MoveOutcome(orig, db, moves, f, target, movingTo, fill);
    InvIsWellFormed(orig, moved, later);
    TargetIsNoTree(orig, later, f);
    MoveBooks(orig, db, moves, reg, complete, pending, f, target, after, moved, later);
    PendingShrinks(orig, start, db, moved, pending, f, target);
    assert Grown(moves0, later, pending - {f}) by { ToldGrows(moves0, moves, pending, f, target); }
  }

  lemma ToldGrows(moves0: map<string, string>, moves: map<string, string>, pending: set<string>, f: string,
      target: string)
    requires Grown(moves0, moves, pending) && f in pending
    ensures Grown(moves0, Told(moves, f, target), pending - {f})
  {
  }

  lemma TargetIsNoTree(orig: Db, moves: map<string, string>, f: string)
    requires MovesOk(orig, moves) && f in moves
    ensures !IsTree(orig.objects, moves[f])
  {
    if IsTree(orig.objects, moves[f]) { OriginalIsNoTarget(orig, moves, moves[f]); }
  }

  /** A start after the journal was written gives the device the target the journal names, never another one. */
  lemma JournalDecides(orig: Db, start: Db, moves: map<string, string>, reg: DeviceId.Registry, complete: set<string>,
      f: string)
    requires RunInv(orig, start, moves, start, moves, reg, complete, Roots(start.objects) - complete)
    requires IsTree(orig.objects, f) && IsTree(start.objects, f) && start.objects[Root(f)].movingTo.Some?
    ensures reg.PrefixFor(start.objects[Root(f)].sku.value, start.objects[Root(f)].deviceId.value).1
            == start.objects[Root(f)].movingTo.value
  {
    hide Inv, RegistryOk, FreshTarget, Keeps, AllKnown, AllDone;
    var g := OwnerOf(orig, start, moves, f);
    InvIsWellFormed(orig, start, moves);
    if g in moves { TargetIsNoTree(orig, moves, g); }
    assert f in Roots(start.objects) by { assert Root(f) in start.objects; }
    assert f !in complete;
    var h := TargetOf(orig, start, moves, start, moves, reg, complete, Roots(start.objects) - complete, f);
    if h in moves { TargetIsNoTree(orig, moves, h); }
  }

  // ----- the run -----

  /** A store some interrupted migration of `orig` can leave behind. */
  ghost predicate Reachable(orig: Db, db: Db) {
    exists moves :: Inv(orig, db, moves)
  }

  lemma RunIsReachable(orig: Db, start: Db, moves0: map<string, string>, db: Db, moves: map<string, string>,
                       reg: DeviceId.Registry, complete: set<string>, pending: set<string>)
    requires RunInv(orig, start, moves0, db, moves, reg, complete, pending)
    ensures Reachable(orig, db)
  {
  }

  lemma TreeCovered(orig: Db, start: Db, moves0: map<string, string>, db: Db, moves: map<string, string>,
                    reg: DeviceId.Registry, complete: set<string>, pending: set<string>,
                    f: string, target: string, movingTo: Option<string>, fill: bool, p: Db -> bool)
    requires RunInv(orig, start, moves0, db, moves, reg, complete, pending) && f in pending
    requires IsTree(orig.objects, f) && !Marked(db.objects, f)
    requires target == Home(Told(moves, f, target), f) && target != f
    requires f !in moves ==> FreshTarget(orig, moves, f, target) && !Marked(orig.objects, f)
    requires movingTo == (if f in moves then Some(target) else None) && fill == (target in complete)
    requires forall d | Reachable(orig, d) :: p(d)
    ensures CoversMove(p, db, f, movingTo, target, fill)
  {
    hide Inv, FreshTarget;
    ToldInv(orig, db, moves, f, target, movingTo, fill);
    forall d | Inv(orig, d, Told(moves, f, target)) ensures p(d) {
      assert Reachable(orig, d);
    }
    MoveCovered(orig, db, f, movingTo, target, fill, Told(moves, f, target), p);
  }

  // ----- the end of an uninterrupted run -----

  /**
   * The device of the original tree `f` has exactly one tree: marked, at `home`, with everything that was below `f`.
   */
  ghost predicate AtHome(orig: Db, db: Db, f: string, home: string)
    requires IsTree(orig.objects, f)
  {
    && IsTree(db.objects, home) && Marked(db.objects, home)
    && (forall r | IsTree(db.objects, r) :: KeyOf(db.objects, r) == KeyOf(orig.objects, f) <==> r == home)
    && (home != f ==> TreeIds(db.objects, f) == {} && NoEnds(db.aliases, f))
    && (forall id | id in orig.objects && InTree(id, f) :: LivesBelow(orig, db, id, home))
  }

  /** Every device is where the registry says. */
  ghost predicate Converged(orig: Db, db: Db, reg: DeviceId.Registry) {
    forall f | IsTree(orig.objects, f) ::
      KeyOf(orig.objects, f) in reg.byKey && AtHome(orig, db, f, reg.byKey[KeyOf(orig.objects, f)].prefix)
  }

  lemma FinishedIsAtHome(orig: Db, db: Db, moves: map<string, string>, f: string)
    requires Inv(orig, db, moves) && IsTree(orig.objects, f) && Finished(db, moves, f)
    ensures AtHome(orig, db, f, Home(moves, f))
  {
    hide Inv, LivesBelow, NoEnds;
    HomeIsTree(orig, db, moves, f);
    forall r | IsTree(db.objects, r) ensures KeyOf(db.objects, r) == KeyOf(orig.objects, f) <==> r == Home(moves, f) {
      OnlyHome(orig, db, moves, f, r);
    }
    EverythingAtHome(orig, db, moves, f);
    if f in moves { OldTreeIsGone(orig, db, moves, f); }
  }

  lemma OldTreeIsGone(orig: Db, db: Db, moves: map<string, string>, f: string)
    requires Inv(orig, db, moves) && f in moves && Finished(db, moves, f)
    ensures TreeIds(db.objects, f) == {} && NoEnds(db.aliases, f)
  {
    assert Root(f) !in TreeIds(db.objects, f);
    assert Lost(orig, db, f);
  }

  lemma OnlyHome(orig: Db, db: Db, moves: map<string, string>, f: string, r: string)
    requires Inv(orig, db, moves) && IsTree(orig.objects, f) && Finished(db, moves, f) && IsTree(db.objects, r)
    ensures KeyOf(db.objects, r) == KeyOf(orig.objects, f) <==> r == Home(moves, f)
  {
    hide RestInv, TreeInv, AliasInv;
    var g := OwnerOf(orig, db, moves, r);
    if g == f {
      assert r == f && f in moves ==> Root(f) in TreeIds(db.objects, f);
    } else if r == Home(moves, f) {
      if r == g { OriginalIsNoTarget(orig, moves, g); TargetOrSelf(moves, f); } else { HomesDiffer(orig, moves, f, g); }
    }
  }

  lemma TargetOrSelf(moves: map<string, string>, f: string)
    ensures Home(moves, f) == f || Home(moves, f) in Targets(moves)
  {
  }

  lemma EverythingAtHome(orig: Db, db: Db, moves: map<string, string>, f: string)
    requires Inv(orig, db, moves) && IsTree(orig.objects, f) && Finished(db, moves, f)
    ensures forall id | id in orig.objects && InTree(id, f) :: LivesBelow(orig, db, id, Home(moves, f))
  {
    if f in moves {
      OtherRoots(orig, moves, f);
      MovedTreeLives(orig, db, f, moves[f]);
      forall id | id in orig.objects && InTree(id, f) ensures LivesBelow(orig, db, id, moves[f]) {
        assert Retree(id, f) == id && id !in TreeIds(db.objects, f);
      }
    } else {
      RestLives(orig, db, moves, f);
    }
  }

  lemma RunConverges(orig: Db, start: Db, moves0: map<string, string>, db: Db, moves: map<string, string>,
      reg: DeviceId.Registry, complete: set<string>)
    requires RunInv(orig, start, moves0, db, moves, reg, complete, {})
    ensures Converged(orig, db, reg)
  {
    hide Inv, RegistryOk;
    InvIsWellFormed(orig, db, moves);
    forall f | IsTree(orig.objects, f)
      ensures KeyOf(orig.objects, f) in reg.byKey && AtHome(orig, db, f, reg.byKey[KeyOf(orig.objects, f)].prefix)
    {
      RecordedHome(orig, moves, reg, f);
      FinishedIsAtHome(orig, db, moves, f);
    }
  }

  /** Every tree carries the mark and no journal. */
  predicate Quiet(db: Db) {
    Roots(db.objects) == FinalRoots(db.objects)
  }

  // ----- whole starts -----

  /** The seeding sets up the books of the run. */
  lemma StartBooks(orig: Db, moves: map<string, string>, s: Start)
    requires Inv(orig, s.before, moves) && IsSeeded(s)
    ensures s.first.db == s.before && s.first.complete == FinalRoots(s.before.objects)
    ensures s.waiting == Roots(s.before.objects) - s.first.complete
    ensures RunInv(orig, s.before, moves, s.before, moves, s.first.reg, s.first.complete, s.waiting)
  {
    hide Inv, RegistryOk, HomesRecorded, MarkedSeeds, JournalSeeds, RunInv;
    var objects := s.before.objects;
    MarkedAreRecorded(orig, s.before, moves, s.listed);
    var (reg, complete) := MarkedSeeds(objects, s.listed);
    JournalsAreRecorded(orig, s.before, moves, s.listed, reg, complete);
    assert complete == FinalRoots(objects);
    assert Listed(s.listed) * InterruptedRoots(objects) == InterruptedRoots(objects);
    RunStarts(orig, s.before, moves, s.first.reg);
  }

  /** A step without a refused write keeps the books and passes reachable stores only. */
  lemma StepIsReachable(orig: Db, start: Db, moves0: map<string, string>, moves: map<string, string>,
      rest: set<string>, s: Step)
    returns (later: map<string, string>)
    requires RunInv(orig, start, moves0, s.before.db, moves, s.before.reg, s.before.complete, rest) && s.rel in rest
    requires StepOk(start.objects, s) && s.outcome != Fails
    ensures s.outcome == Done ==>
              RunInv(orig, start, moves0, s.after.db, later, s.after.reg, s.after.complete, rest - {s.rel})
    ensures Reachable(orig, s.after.db) && forall i | 0 <= i < |s.points| :: Reachable(orig, s.points[i].db)
  {
    hide RunInv, Inv, RegistryOk, FreshTarget, Keeps, Recorded, MovedTree, CoversMove, MovePoint, Reachable;
    var listing, b := start.objects, s.before;
    var f := TargetOf(orig, start, moves0, b.db, moves, b.reg, b.complete, rest, s.rel);
    var (reg, target) := Asked(listing, b, s.rel);
    later := Told(moves, f, target);
    RunIsReachable(orig, start, moves0, b.db, moves, b.reg, b.complete, rest);
    if target == s.rel {
      MarkStep(orig, start, moves0, b.db, moves, b.reg, b.complete, rest, s.rel, f, reg);
      RunIsReachable(orig, start, moves0, Extension(b.db, s.rel), moves, reg, b.complete + {s.rel}, rest - {s.rel});
    } else {
      var movingTo, fill, p := JournalOf(listing[Root(s.rel)]), target in b.complete, (d: Db) => Reachable(orig, d);
      TreeCovered(orig, start, moves0, b.db, moves, b.reg, b.complete, rest, f, target, movingTo, fill, p);
      MoveStep(orig, start, moves0, b.db, moves, b.reg, b.complete, rest, f, target, movingTo, fill, reg);
      forall d | MovePoint(b.db, s.rel, movingTo, target, fill, d) ensures Reachable(orig, d) {
        CoveredPoint(b.db, s.rel, movingTo, target, fill, p, d);
      }
    }
  }

  ghost predicate NeverFails(plan: Plan) {
    forall n: nat, w :: plan(n, w) != Fails
  }

  /** The books before step `i` of a run in which nothing is refused. */
  lemma {:induction false} RunKeepsBooks(orig: Db, moves0: map<string, string>, rank: Rank, s: Start, i: nat)
    returns (moves: map<string, string>)
    requires Inv(orig, s.before, moves0) && IsStart(rank, s) && NeverFails(s.plan) && i <= |s.steps|
    ensures (forall k | 0 <= k < i :: s.steps[k].outcome == Done) ==>
              var b := BooksAt(s.first, s.steps, i);
              RunInv(orig, s.before, moves0, b.db, moves, b.reg, b.complete, RestAt(s.waiting, s.steps, i))
    ensures forall k | 0 <= k < i :: StepPasses(orig, s.steps[k])
  {
    hide RunInv, Inv, StepPasses, IsStart, IsSeeded, StepOk;
    if i == 0 {
      assert IsSeeded(s) by { StartHas(rank, s); }
      StartBooks(orig, moves0, s);
      moves := moves0;
    } else {
      moves := RunKeepsBooks(orig, moves0, rank, s, i - 1);
      forall k | 0 <= k < i ensures s.steps[k].outcome == Done || (s.steps[k].outcome == Crash && k == i - 1) {
        StepOf(rank, s, k);
      }
      var b := BooksAt(s.first, s.steps, i - 1);
      StepOf(rank, s, i - 1);
      moves := StepIsReachable(orig, s.before, moves0, moves, RestAt(s.waiting, s.steps, i - 1), s.steps[i - 1]);
      PassesIs(orig, s.steps[i - 1]);
    }
  }

  /** One step of a start that refuses nothing. */
  lemma StepOf(rank: Rank, s: Start, k: nat)
    requires IsStart(rank, s) && NeverFails(s.plan) && k < |s.steps|
    ensures StepOk(s.before.objects, s.steps[k])
    ensures s.steps[k].before == BooksAt(s.first, s.steps, k) && s.steps[k].rel in RestAt(s.waiting, s.steps, k)
    ensures s.steps[k].outcome == Done || (s.steps[k].outcome == Crash && k == |s.steps| - 1)
  {
    hide StepOk, StepPlanned, IsStart, RestAt;
    StepAt(rank, s, k);
    PlannedOutcome(s.plan, s.before.objects, s.steps[k]);
  }

  /** Every store the step left behind is reachable. */
  ghost predicate StepPasses(orig: Db, s: Step) {
    Reachable(orig, s.after.db) && forall i | 0 <= i < |s.points| :: Reachable(orig, s.points[i].db)
  }

  lemma PassesIs(orig: Db, s: Step)
    requires Reachable(orig, s.after.db) && forall i | 0 <= i < |s.points| :: Reachable(orig, s.points[i].db)
    ensures StepPasses(orig, s)
  {
  }

  lemma PlannedOutcome(plan: Plan, listing: map<Id, Object>, s: Step)
    requires StepOk(listing, s) && StepPlanned(plan, listing, s) && NeverFails(plan)
    ensures s.outcome != Fails
  {
    hide TreeWrite, TreePoint, DealtWith;
  }

  /** A start in which nothing is refused: whatever write it dies at. */
  lemma StartIsReachable(orig: Db, moves0: map<string, string>, rank: Rank, s: Start)
    requires Inv(orig, s.before, moves0) && IsStart(rank, s) && NeverFails(s.plan)
    ensures forall i | 0 <= i < |AllPoints(s.steps)| :: Reachable(orig, AllPoints(s.steps)[i].db)
    ensures Reachable(orig, s.end.db)
  {
    hide Inv, Reachable, AllPoints, IsStart, IsSeeded, RestAt, StepOk, RunInv;
    StartHas(rank, s);
    var _ := RunKeepsBooks(orig, moves0, rank, s, |s.steps|);
    AllPointsHave(s.steps, (d: Db) => Reachable(orig, d));
    if s.steps == [] {
      assert s.end.db == s.before by { StartBooks(orig, moves0, s); }
      InvIsReachable(orig, s.before, moves0);
    }
  }

  lemma InvIsReachable(orig: Db, db: Db, moves: map<string, string>)
    requires Inv(orig, db, moves)
    ensures Reachable(orig, db)
  {
  }

  /** And where it ends; a store that is quiet is not written at all. */
  lemma StartConverges(orig: Db, moves0: map<string, string>, rank: Rank, s: Start)
    requires Inv(orig, s.before, moves0) && IsStart(rank, s) && NeverFails(s.plan)
    ensures !Died(s) ==> Converged(orig, s.end.db, s.end.reg)
    ensures Quiet(s.before) ==> s.steps == [] && s.end.db == s.before
  {
    hide Inv, RunInv, Converged, IsStart, IsSeeded, RestAt, StepOk, StepPasses;
    StartHas(rank, s);
    if !Died(s) {
      var moves := RunKeepsBooks(orig, moves0, rank, s, |s.steps|);
      forall k | 0 <= k < |s.steps| ensures s.steps[k].outcome == Done { StepOf(rank, s, k); }
      RunConverges(orig, s.before, moves0, s.end.db, moves, s.end.reg, s.end.complete);
    }
    if Quiet(s.before) {
      StartBooks(orig, moves0, s);
      NothingWaits(rank, s);
    }
  }

  lemma ReachableIsSound(orig: Db, db: Db)
    requires Reachable(orig, db)
    ensures Preserved(orig, db)
  {
    var moves :| Inv(orig, db, moves);
    InvPreserves(orig, db, moves);
  }

  /** After an uninterrupted run every tree is final, so the next start has nothing to do. */
  lemma ConvergedIsQuiet(orig: Db, db: Db, reg: DeviceId.Registry)
    requires Reachable(orig, db) && Converged(orig, db, reg)
    ensures Quiet(db)
  {
    hide Inv, LivesBelow;
    var moves :| Inv(orig, db, moves);
    forall r | r in Roots(db.objects) ensures Final(db.objects, r) {
      var f := OwnerOf(orig, db, moves, r);
      assert AtHome(orig, db, f, reg.byKey[KeyOf(orig.objects, f)].prefix);
    }
  }

  /** Every store a start passed, and the one it left, keeps what `orig` held. */
  ghost predicate StartPreserves(orig: Db, s: Start) {
    Preserved(orig, s.end.db) && forall k | 0 <= k < |AllPoints(s.steps)| :: Preserved(orig, AllPoints(s.steps)[k].db)
  }

  /** It preserves all, it ends converged unless it died, and it writes nothing to a store that is quiet. */
  ghost predicate StartSound(orig: Db, s: Start) {
    && StartPreserves(orig, s)
    && (!Died(s) ==> Converged(orig, s.end.db, s.end.reg) && Quiet(s.end.db))
    && (Quiet(s.before) ==> s.steps == [] && s.end.db == s.before)
  }

  lemma StartIsSound(orig: Db, rank: Rank, s: Start)
    requires Reachable(orig, s.before) && IsStart(rank, s) && NeverFails(s.plan)
    ensures Reachable(orig, s.end.db) && StartSound(orig, s)
  {
    var moves0 :| Inv(orig, s.before, moves0);
    hide Inv, Reachable, Converged, Quiet, Preserved, IsStart, AllPoints;
    StartIsReachable(orig, moves0, rank, s);
    StartConverges(orig, moves0, rank, s);
    ReachableIsSound(orig, s.end.db);
    forall k | 0 <= k < |AllPoints(s.steps)| ensures Preserved(orig, AllPoints(s.steps)[k].db) {
      ReachableIsSound(orig, AllPoints(s.steps)[k].db);
    }
    if !Died(s) { ConvergedIsQuiet(orig, s.end.db, s.end.reg); }
  }

  lemma OrigIsReachable(orig: Db)
    requires WellFormed(orig)
    ensures Reachable(orig, orig)
  {
    InvAtStart(orig);
  }

  /** Every start of a history that refuses nothing, whatever it died at. */
  lemma {:induction false} HistoryIsSound(orig: Db, rank: Rank, starts: seq<Start>, i: nat)
    requires WellFormed(orig) && IsHistory(orig, rank, starts) && i <= |starts|
    requires forall k | 0 <= k < |starts| :: NeverFails(starts[k].plan)
    ensures Reachable(orig, StoreAt(orig, starts, i))
    ensures forall k | 0 <= k < i :: StartSound(orig, starts[k])
  {
    hide Reachable, WellFormed, StartSound, IsStart, NeverFails;
    if i == 0 {
      OrigIsReachable(orig);
    } else {
      HistoryIsSound(orig, rank, starts, i - 1);
      StartIsSound(orig, rank, starts[i - 1]);
    }
  }

  /**
   * Any number of starts, each killed at any write or not at all, then one that is left alone, then one more. At every
   * write of all of them nothing of a device tree is lost and the aliases follow; in the end every device has one tree,
   * marked, under the id its registry holds; and the last start writes nothing.
   */
  method SurviveRestarts(store: Store, rank: Rank, plans: seq<Plan>, ghost orig: Db) returns (ghost starts: seq<Start>)
    requires WellFormed(orig) && store.View() == orig
    requires forall i | 0 <= i < |plans| :: NeverFails(plans[i])
    modifies store
    ensures IsHistory(orig, rank, starts) && |starts| == |plans| + 2
    ensures forall i | 0 <= i < |starts| :: starts[i].plan == if i < |plans| then plans[i] else SMOOTH
    ensures forall i | 0 <= i < |starts| :: StartPreserves(orig, starts[i])
    ensures !Died(starts[|plans|]) && Converged(orig, store.View(), starts[|plans|].end.reg)
    ensures starts[|plans| + 1].steps == [] && store.trace == []
    ensures store.View() == starts[|plans|].end.db == starts[|plans| + 1].end.db
  {
    hide IsHistory, Converged, StartPreserves, IsStart, WellFormed, Quiet;
    starts := RunHistory(store, rank, plans + [SMOOTH, SMOOTH]);
    HistoryIsSound(orig, rank, starts, |starts|);
    assert forall k | 0 <= k < |starts| :: StartSound(orig, starts[k]);
    SmoothNeverDies(orig, rank, starts, |plans|);
    assert Quiet(starts[|plans|].end.db);
    HistoryLinks(orig, rank, starts, |plans| + 1);
  }

  lemma SmoothNeverDies(orig: Db, rank: Rank, starts: seq<Start>, k: nat)
    requires IsHistory(orig, rank, starts) && k < |starts| && starts[k].plan == SMOOTH
    ensures !Died(starts[k])
  {
    hide StepOk, TreeWrite;
    var s := starts[k];
    if s.steps != [] { StepAt(rank, s, |s.steps| - 1); }
  }

  lemma HistoryLinks(orig: Db, rank: Rank, starts: seq<Start>, k: nat)
    requires IsHistory(orig, rank, starts) && 0 < k < |starts|
    ensures starts[k].before == starts[k - 1].end.db
  {
    hide IsStart;
  }
}
