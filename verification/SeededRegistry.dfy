/** Whose trees the registry knows once a start has recorded them, from the objects alone. */
module SeededRegistry {
  import opened Options
  import opened ObjectIds
  import opened DeviceMove
  import opened MoveInvariant
  import opened MigrationRun
  import DeviceId

  /** The entry is of a marked tree without a journal, at its own root. */
  ghost predicate FromMarked(objects: map<Id, Object>, listed: seq<string>, e: DeviceId.Entry) {
    exists r | r in listed && Root(r) in objects ::
      var o := objects[Root(r)];
      && o.idScheme == Some(3) && (o.movingTo.None? || o.movingTo.value == "")
      && o.sku == Some(e.sku) && o.deviceId == Some(e.deviceId) && e.prefix == r
  }

  /** The entry is of an unmarked tree with a journal that leads elsewhere, at that other root. */
  ghost predicate FromJournal(objects: map<Id, Object>, listed: seq<string>, e: DeviceId.Entry) {
    exists r | r in listed && Root(r) in objects ::
      var o := objects[Root(r)];
      && o.idScheme != Some(3) && o.movingTo == Some(e.prefix) && e.prefix != "" && e.prefix != r
      && o.sku == Some(e.sku) && o.deviceId == Some(e.deviceId)
  }

  /**
   * What the marked trees leave: nothing but entries of theirs, each known complete exactly where it is recorded, and
   * an entry for every device that has such a tree.
   */
  ghost predicate MarkedRecorded(objects: map<Id, Object>, listed: seq<string>, reg: DeviceId.Registry,
      complete: set<string>)
    requires AreTrees(objects, listed)
  {
    && reg.Inverse()
    && (forall k | k in reg.byKey :: FromMarked(objects, listed, reg.byKey[k]) && reg.byKey[k].prefix in complete)
    && (forall r | r in complete :: r in reg.byPrefix)
    && (forall i | 0 <= i < |listed| ::
          var o := objects[Root(listed[i])];
          o.idScheme == Some(3) && (o.movingTo.None? || o.movingTo.value == "") ==>
            DeviceId.MapKey(o.sku.value, o.deviceId.value) in reg.byKey || listed[i] in reg.byPrefix)
  }

  lemma {:induction false} MarkedSeedsAre(objects: map<Id, Object>, listed: seq<string>)
    requires AreTrees(objects, listed)
    ensures var (reg, complete) := MarkedSeeds(objects, listed); MarkedRecorded(objects, listed, reg, complete)
  {
    if listed != [] {
      var n := |listed| - 1;
      MarkedSeedsAre(objects, listed[..n]);
      var (reg, complete) := MarkedSeeds(objects, listed[..n]);
      MarkedOneMore(objects, listed, reg, complete);
    }
  }

  lemma MarkedOneMore(objects: map<Id, Object>, listed: seq<string>, reg: DeviceId.Registry, complete: set<string>)
    requires listed != [] && AreTrees(objects, listed)
    requires MarkedRecorded(objects, listed[..|listed| - 1], reg, complete)
    ensures var r := listed[|listed| - 1];
            var o := objects[Root(r)];
            var (after, recorded) := reg.Seed(o.sku.value, o.deviceId.value, r);
            if Final(objects, r) then
              MarkedRecorded(objects, listed, after, if recorded then complete + {r} else complete)
            else MarkedRecorded(objects, listed, reg, complete)
  {
    hide DeviceId.MapKey, RootForm, DeviceId.Registry.Seed, DeviceId.Registry.Inverse;
    var n := |listed| - 1;
    var o := objects[Root(listed[n])];
    SeedRecords(reg, o.sku.value, o.deviceId.value, listed[n]);
    assert forall r :: r in listed <==> r in listed[..n] || r == listed[n];
    assert forall i | 0 <= i < n :: listed[..n][i] == listed[i];
    assert forall e | FromMarked(objects, listed[..n], e) :: FromMarked(objects, listed, e);
  }

  /** A seed adds its own entry or nothing, and nothing only where its device or its root is recorded. */
  lemma SeedRecords(reg: DeviceId.Registry, sku: string, deviceId: string, prefix: string)
    requires reg.Inverse()
    ensures var (after, recorded) := reg.Seed(sku, deviceId, prefix);
            var key := DeviceId.MapKey(sku, deviceId);
            && after.Inverse()
            && (forall k | k in reg.byKey :: k in after.byKey && after.byKey[k] == reg.byKey[k])
            && (forall k | k in after.byKey && k !in reg.byKey ::
                  recorded && after.byKey[k] == DeviceId.Entry(sku, deviceId, prefix))
            && (forall p | p in reg.byPrefix :: p in after.byPrefix)
            && (key in after.byKey || prefix in after.byPrefix)
            && (recorded ==> prefix in after.byPrefix)
  {
    DeviceId.SeedKeepsInverse(reg, sku, deviceId, prefix);
    hide DeviceId.MapKey;
  }

  /** What the journals add: entries of theirs, and none of the device or of the target is free any more. */
  ghost predicate JournalsRecorded(objects: map<Id, Object>, listed: seq<string>, before: DeviceId.Registry,
      after: DeviceId.Registry)
    requires AreTrees(objects, listed)
  {
    && after.Inverse()
    && (forall k | k in before.byKey :: k in after.byKey && after.byKey[k] == before.byKey[k])
    && (forall k | k in after.byKey && k !in before.byKey :: FromJournal(objects, listed, after.byKey[k]))
    && (forall i | 0 <= i < |listed| ::
          var o := objects[Root(listed[i])];
          o.idScheme != Some(3) && o.movingTo.Some? && o.movingTo.value != "" && o.movingTo.value != listed[i] ==>
            DeviceId.MapKey(o.sku.value, o.deviceId.value) in after.byKey || o.movingTo.value in after.byPrefix)
  }

  lemma {:induction false} JournalSeedsAre(objects: map<Id, Object>, listed: seq<string>, seeded: DeviceId.Registry)
    requires AreTrees(objects, listed) && seeded.Inverse()
    ensures JournalsRecorded(objects, listed, seeded, JournalSeeds(objects, listed, seeded))
    decreases |listed|
  {
    hide JournalsRecorded;
    if listed == [] {
      NoJournals(objects, seeded);
    } else {
      var n := |listed| - 1;
      JournalSeedsAre(objects, listed[..n], seeded);
      JournalOneMore(objects, listed, seeded, JournalSeeds(objects, listed[..n], seeded));
    }
  }

  lemma NoJournals(objects: map<Id, Object>, seeded: DeviceId.Registry)
    requires seeded.Inverse()
    ensures JournalsRecorded(objects, [], seeded, seeded)
  {
  }

  lemma JournalOneMore(objects: map<Id, Object>, listed: seq<string>, before: DeviceId.Registry, reg: DeviceId.Registry)
    requires listed != [] && AreTrees(objects, listed)
    requires JournalsRecorded(objects, listed[..|listed| - 1], before, reg)
    ensures var r := listed[|listed| - 1];
            var o := objects[Root(r)];
            JournalsRecorded(objects, listed, before,
                if Interrupted(objects, r) then reg.Seed(o.sku.value, o.deviceId.value, JournalOf(o).value).0 else reg)
  {
    hide DeviceId.MapKey, RootForm, DeviceId.Registry.Seed, DeviceId.Registry.Inverse;
    var n := |listed| - 1;
    var o := objects[Root(listed[n])];
    if Interrupted(objects, listed[n]) { SeedRecords(reg, o.sku.value, o.deviceId.value, JournalOf(o).value); }
    assert forall r :: r in listed <==> r in listed[..n] || r == listed[n];
    assert forall i | 0 <= i < n :: listed[..n][i] == listed[i];
    assert forall e | FromJournal(objects, listed[..n], e) :: FromJournal(objects, listed, e);
  }

  /**
   * The registry a start begins to move with, over any listing: first the marked trees without a journal, then where
   * the journals of unmarked ones lead; nothing else is in it, and none of them was left out for a reason other than
   * that its device or its root is recorded.
   */
  lemma SeedsAre(objects: map<Id, Object>, listed: seq<string>)
    requires AreTrees(objects, listed)
    ensures var (reg, complete) := MarkedSeeds(objects, listed);
            && MarkedRecorded(objects, listed, reg, complete)
            && JournalsRecorded(objects, listed, reg, JournalSeeds(objects, listed, reg))
  {
    hide MarkedRecorded, JournalsRecorded;
    MarkedSeedsAre(objects, listed);
    var (reg, complete) := MarkedSeeds(objects, listed);
    assert reg.Inverse() by { RecordedIsInverse(objects, listed, reg, complete); }
    JournalSeedsAre(objects, listed, reg);
  }

  lemma RecordedIsInverse(objects: map<Id, Object>, listed: seq<string>, reg: DeviceId.Registry, complete: set<string>)
    requires AreTrees(objects, listed) && MarkedRecorded(objects, listed, reg, complete)
    ensures reg.Inverse()
  {
  }
}
