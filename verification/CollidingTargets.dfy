/**
 * The other half of conservation under refused writes: when two trees that have to move want the same root, one start
 * with the wrong write refused loses a device. The first tree is copied and its delete is refused; the registry is told
 * to keep the old root, so the target is free again; the second tree is told that target, finds it marked, takes it for
 * its own finished copy, and is deleted.
 */
module CollidingTargets {
  import opened Options
  import opened ObjectIds
  import opened DeviceMove
  import opened MoveInvariant
  import opened MigrationRun
  import opened RefusedWrites
  import opened RefusedStarts
  import DeviceId

  /** Two trees, the first of which sorts first, that want the same root. */
  ghost predicate Collide(orig: Db, rank: Rank, f: string, g: string) {
    && Unmoved(orig.objects, f) && Unmoved(orig.objects, g) && f != g && rank(f) < rank(g)
    && Destination(orig.objects, f) == Destination(orig.objects, g)
  }

  /** The deletes below `f` are refused, and everything that would start another tree but `f` and `g`. */
  function Sticky(f: string, g: string, t: string): Plan {
    (_, w: Write) =>
      match w
      case Del(id) => if InTree(id, f) then Fails else Done
      case Extend(id, _) => if id.Below? && id.root in {f, g, t} then Done else Fails
      case _ => Done
  }

  /** The roots of the colliding trees and their target differ, and nothing stands there. */
  lemma TargetIsBare(orig: Db, rank: Rank, f: string, g: string)
    requires WellFormed(orig) && Collide(orig, rank, f, g)
    ensures var t := Destination(orig.objects, f);
            RootForm(t) && NothingIn(orig, t) && !IsTree(orig.objects, t) && t != f && t != g
  {
    var t := Destination(orig.objects, f);
    DestinationIsFree(orig, f);
    DestinationIsFree(orig, g);
    assert InTree(Root(t), t);
  }

  // ----- the registry of that start -----

  /** Whoever was dealt with is recorded, `g` at the target and every other device where it stood. */
  ghost predicate Recorded(orig: Db, g: string, t: string, reg: DeviceId.Registry, rest: set<string>) {
    && reg.Inverse()
    && (forall k | k in reg.byKey ::
        exists h :: Owns(orig, h, k) && h !in rest && reg.byKey[k].prefix == Place(g, t, h))
    && forall h | IsTree(orig.objects, h) && h !in rest :: KeyOf(orig.objects, h) in reg.byKey
  }

  function Place(g: string, t: string, h: string): string {
    if h == g then t else h
  }

  /** A held root belongs to a device that was dealt with. */
  lemma HeldPlace(orig: Db, g: string, t: string, reg: DeviceId.Registry, rest: set<string>, p: string)
    requires WellFormed(orig) && !IsTree(orig.objects, t) && Recorded(orig, g, t, reg, rest) && p in reg.byPrefix
    ensures p == t ==> g !in rest
    ensures IsTree(orig.objects, p) ==> p !in rest
    ensures IsTree(orig.objects, p) || p == t
  {
    var k := reg.byPrefix[p].Key();
    var h :| Owns(orig, h, k) && h !in rest && reg.byKey[k].prefix == Place(g, t, h);
  }

  lemma RecordedPlace(orig: Db, g: string, t: string, reg: DeviceId.Registry, rest: set<string>, h: string)
    requires WellFormed(orig) && Recorded(orig, g, t, reg, rest) && IsTree(orig.objects, h)
    ensures KeyOf(orig.objects, h) in reg.byKey <==> h !in rest
    ensures h !in rest ==> reg.byKey[KeyOf(orig.objects, h)].prefix == Place(g, t, h)
  {
    if KeyOf(orig.objects, h) in reg.byKey {
      var i :| Owns(orig, i, KeyOf(orig.objects, h)) && i !in rest
          && reg.byKey[KeyOf(orig.objects, h)].prefix == Place(g, t, i);
    }
  }

  /** One more device in the registry. */
  lemma OneMore(orig: Db, g: string, t: string, reg: DeviceId.Registry, after: DeviceId.Registry, rest: set<string>,
      h: string)
    requires WellFormed(orig) && Recorded(orig, g, t, reg, rest) && IsTree(orig.objects, h) && h in rest
             && after.Inverse()
    requires forall k | k != KeyOf(orig.objects, h) ::
               (k in after.byKey <==> k in reg.byKey) && (k in reg.byKey ==> after.byKey[k] == reg.byKey[k])
    requires KeyOf(orig.objects, h) in after.byKey && after.byKey[KeyOf(orig.objects, h)].prefix == Place(g, t, h)
    ensures Recorded(orig, g, t, after, rest - {h})
  {
    var key := KeyOf(orig.objects, h);
    hide DeviceId.Registry.Inverse;
    forall k | k in after.byKey
      ensures exists i :: Owns(orig, i, k) && i !in rest - {h} && after.byKey[k].prefix == Place(g, t, i)
    {
      if k == key {
        assert Owns(orig, h, k);
      } else {
        var i :| Owns(orig, i, k) && i !in rest && reg.byKey[k].prefix == Place(g, t, i);
      }
    }
  }

  /** A waiting device is unknown, so it is told something nothing holds. */
  lemma AskedFresh(orig: Db, g: string, t: string, b: Books, rest: set<string>, h: string)
    requires WellFormed(orig) && Recorded(orig, g, t, b.reg, rest) && IsTree(orig.objects, h) && h in rest
    ensures var (reg, target) := Asked(orig.objects, b, h);
            && KeyOf(orig.objects, h) !in b.reg.byKey && target !in b.reg.byPrefix && reg.Inverse()
            && KeyOf(orig.objects, h) in reg.byKey && reg.byKey[KeyOf(orig.objects, h)].prefix == target
            && forall k | k != KeyOf(orig.objects, h) ::
                 (k in reg.byKey <==> k in b.reg.byKey) && (k in b.reg.byKey ==> reg.byKey[k] == b.reg.byKey[k])
  {
    RecordedPlace(orig, g, t, b.reg, rest, h);
    DeviceId.FreshIdIsRecorded(b.reg, DeviceOf(orig.objects, h).0, DeviceOf(orig.objects, h).1);
  }

  /** Both trees are told the target while it is free. */
  lemma AskedTarget(orig: Db, rank: Rank, f: string, g: string, b: Books, rest: set<string>, h: string)
    requires WellFormed(orig) && Collide(orig, rank, f, g) && h in {f, g} && h in rest && g in rest
    requires forall r | r in rest :: Unmoved(orig.objects, r)
    requires Recorded(orig, g, Destination(orig.objects, f), b.reg, rest)
    ensures Asked(orig.objects, b, h).1 == Destination(orig.objects, f)
  {
    var t := Destination(orig.objects, f);
    var (sku, deviceId) := DeviceOf(orig.objects, h);
    var folder := DeviceId.Folder(sku);
    TargetIsBare(orig, rank, f, g);
    RecordedPlace(orig, g, t, b.reg, rest, h);
    if t in b.reg.byPrefix { HeldPlace(orig, g, t, b.reg, rest, t); }
    MarkedIdsHeld(orig, g, t, b.reg, rest, folder);
    IdIsTaken(b.reg, folder, DeviceId.DeviceIdFor(sku, deviceId, HeldIds(orig.objects, folder)));
    DeviceId.ChoiceIsStable(sku, deviceId, HeldIds(orig.objects, folder), b.reg.IdsIn(folder));
    hide WellFormed, Recorded, DeviceId.Registry.IdsIn, HeldIds, DeviceId.DeviceIdFor;
  }

  lemma MarkedIdsHeld(orig: Db, g: string, t: string, reg: DeviceId.Registry, rest: set<string>, folder: string)
    requires WellFormed(orig) && Recorded(orig, g, t, reg, rest) && Unmoved(orig.objects, g)
    requires forall r | r in rest :: Unmoved(orig.objects, r)
    ensures HeldIds(orig.objects, folder) <= reg.IdsIn(folder)
  {
    hide Recorded, WellFormed, DeviceId.Registry.Inverse;
    forall id | id in HeldIds(orig.objects, folder) ensures id in reg.IdsIn(folder) {
      var r :| r in Roots(orig.objects) && Marked(orig.objects, r) && folder + "." <= r && r[|folder| + 1..] == id;
      RecordedPlace(orig, g, t, reg, rest, r);
      assert r in reg.byPrefix by { RecordedHeld(orig, g, t, reg, rest, KeyOf(orig.objects, r)); }
    }
  }

  lemma RecordedHeld(orig: Db, g: string, t: string, reg: DeviceId.Registry, rest: set<string>, key: string)
    requires Recorded(orig, g, t, reg, rest) && key in reg.byKey
    ensures reg.byKey[key].prefix in reg.byPrefix
  {
  }

  // ----- the run -----

  /** The store: as it was, then with the first tree copied and not deleted, then with the second one moved over it. */
  function StoreThen(orig: Db, f: string, g: string, t: string, rest: set<string>): Db {
    if f in rest then orig
    else if g in rest then CopiedTree(orig, f, None, t, false)
    else MovedTree(CopiedTree(orig, f, None, t, false), g, None, t, false)
  }

  ghost predicate LossRun(orig: Db, f: string, g: string, t: string, b: Books, rest: set<string>) {
    && (forall r | r in rest :: Unmoved(orig.objects, r))
    && (f in rest ==> g in rest)
    && Recorded(orig, g, t, b.reg, rest)
    && (forall p | p in b.complete :: p in b.reg.byPrefix)
    && b.db == StoreThen(orig, f, g, t, rest)
  }

  /** What a refused tree leaves in the registry. */
  lemma RefusedPlace(orig: Db, g: string, t: string, b: Books, rest: set<string>, h: string)
    requires WellFormed(orig) && Recorded(orig, g, t, b.reg, rest) && IsTree(orig.objects, h) && h in rest && h != g
    requires !IsTree(orig.objects, t) && (forall p | p in b.complete :: p in b.reg.byPrefix)
    ensures var reg := Asked(orig.objects, b, h).0;
            var after := reg.KeepUnmoved(DeviceOf(orig.objects, h).0, DeviceOf(orig.objects, h).1, h);
            Recorded(orig, g, t, after, rest - {h}) && forall p | p in b.complete :: p in after.byPrefix
  {
    AskedFresh(orig, g, t, b, rest, h);
    if h in b.reg.byPrefix { HeldPlace(orig, g, t, b.reg, rest, h); }
    var (reg, target) := Asked(orig.objects, b, h);
    var (sku, deviceId) := DeviceOf(orig.objects, h);
    var after, key := reg.KeepUnmoved(sku, deviceId, h), KeyOf(orig.objects, h);
    DeviceId.FailedMoveFreesTheTarget(reg, sku, deviceId, h);
    DeviceId.KeepKeepsInverse(reg, sku, deviceId, h);
    hide Asked, Recorded, WellFormed, DeviceId.Registry.KeepUnmoved, IsTree;
    if h in reg.byPrefix && h != target { OldEntry(b.reg, reg, key, h); }
    OneMore(orig, g, t, b.reg, after, rest, h);
    StillHeld(b.reg, after, key);
  }

  /** A prefix that is not the new entry's was held before. */
  lemma OldEntry(before: DeviceId.Registry, reg: DeviceId.Registry, key: string, p: string)
    requires before.Inverse() && reg.Inverse() && key in reg.byKey && p in reg.byPrefix && p != reg.byKey[key].prefix
    requires forall k | k != key ::
             (k in reg.byKey <==> k in before.byKey) && (k in before.byKey ==> reg.byKey[k] == before.byKey[k])
    ensures p in before.byPrefix
  {
    assert reg.byPrefix[p].Key() in reg.byKey;
  }

  /** What was held stays held when only a new key comes in. */
  lemma StillHeld(before: DeviceId.Registry, after: DeviceId.Registry, key: string)
    requires before.Inverse() && after.Inverse() && key !in before.byKey
    requires forall k | k != key ::
             (k in after.byKey <==> k in before.byKey) && (k in before.byKey ==> after.byKey[k] == before.byKey[k])
    ensures forall p | p in before.byPrefix :: p in after.byPrefix
  {
    forall p | p in before.byPrefix ensures p in after.byPrefix {
      assert before.byPrefix[p].Key() in before.byKey;
    }
  }

  /** What the setting is at every step. */
  ghost predicate LossStep(orig: Db, rank: Rank, f: string, g: string, rest: set<string>, s: Step) {
    && WellFormed(orig) && IsOrder(rank) && Collide(orig, rank, f, g)
    && var t := Destination(orig.objects, f);
    && LossRun(orig, f, g, t, s.before, rest) && IsEarliest(rank, rest, s.rel)
    && StepOk(orig.objects, s) && StepPlanned(Sticky(f, g, t), orig.objects, s)
  }

  lemma LossStepHas(orig: Db, rank: Rank, f: string, g: string, rest: set<string>, s: Step)
    requires LossStep(orig, rank, f, g, rest, s)
    ensures var t := Destination(orig.objects, f);
            && Unmoved(orig.objects, s.rel) && s.rel in rest && RootForm(t) && NothingIn(orig, t)
               && !IsTree(orig.objects, t)
            && t != f && t != g && f != g
            && JournalOf(orig.objects[Root(s.rel)]) == None
               && Asked(orig.objects, s.before, s.rel).1 !in s.before.complete
            && TreePlanned(Sticky(f, g, t), orig.objects, s.before, s.rel, Asked(orig.objects, s.before, s.rel).1,
               s.outcome, s.after.db)
  {
    var t := Destination(orig.objects, f);
    TargetIsBare(orig, rank, f, g);
    hide Collide, Asked, Recorded, StoreThen, StepOk, TreePlanned, TargetsFree, Destination, NothingIn;
    AskedFresh(orig, g, t, s.before, rest, s.rel);
  }

  /** The books after a refused write, in terms of what the tree was told. */
  function Refused(listing: map<Id, Object>, b: Books, rel: string, db: Db): Books
    requires IsTree(listing, rel)
  {
    Books(db, Asked(listing, b, rel).0.KeepUnmoved(DeviceOf(listing, rel).0, DeviceOf(listing, rel).1, rel), b.complete)
  }

  lemma OtherOutcome(orig: Db, rank: Rank, f: string, g: string, rest: set<string>, s: Step)
    requires LossStep(orig, rank, f, g, rest, s) && s.rel !in {f, g}
    ensures IsTree(orig.objects, s.rel) && s.outcome == Fails
            && s.after == Refused(orig.objects, s.before, s.rel, s.before.db)
  {
    var plan := Sticky(f, g, Destination(orig.objects, f));
    LossStepHas(orig, rank, f, g, rest, s);
    OtherRootRefused(f, g, Destination(orig.objects, f), s.rel);
    StepHas(plan, orig.objects, s);
    hide Destination, Asked, LossStep, IsTree, NothingIn, DeviceId.Registry.KeepUnmoved, SticksAtDelete, CopiedTree;
    hide TreePoint, DealtWith;
    hide RefusesRoot, TreeWrite, Sticky;
  }

  lemma OtherRootRefused(f: string, g: string, t: string, h: string)
    requires h !in {f, g, t}
    ensures RefusesRoot(Sticky(f, g, t), h)
  {
  }

  /** Any other tree: its first write is refused, and nothing happens. */
  lemma OtherIsRefused(orig: Db, rank: Rank, f: string, g: string, rest: set<string>, s: Step)
    requires LossStep(orig, rank, f, g, rest, s) && s.rel !in {f, g}
    ensures s.outcome == Fails && LossRun(orig, f, g, Destination(orig.objects, f), s.after, rest - {s.rel})
  {
    hide Destination, Asked, Recorded, StepOk, StepPlanned, NothingIn, IsOrder, IsTree, DeviceId.Registry.KeepUnmoved;
    hide CopiedTree, MovedTree, TreePlanned;
    var t := Destination(orig.objects, f);
    LossStepHas(orig, rank, f, g, rest, s);
    OtherOutcome(orig, rank, f, g, rest, s);
    RefusedPlace(orig, g, t, s.before, rest, s.rel);
  }

  lemma FirstOutcome(orig: Db, rank: Rank, f: string, g: string, rest: set<string>, s: Step)
    requires LossStep(orig, rank, f, g, rest, s) && s.rel == f
    ensures IsTree(orig.objects, f) && s.outcome == Fails
    ensures s.before.db == orig && g in rest
    ensures s.after == Refused(orig.objects, s.before, f,
            CopiedTree(orig, f, None, Destination(orig.objects, f), false))
  {
    var t := Destination(orig.objects, f);
    LossStepHas(orig, rank, f, g, rest, s);
    AskedTarget(orig, rank, f, g, s.before, rest, f);
    FirstIsStuck(f, g, t);
    FirstBefore(orig, f, g, t, s.before, rest);
    StepHas(Sticky(f, g, t), orig.objects, s);
    hide Destination, Asked, LossStep, IsTree, NothingIn, DeviceId.Registry.KeepUnmoved, SticksAtDelete, RefusesRoot;
    hide CopiedTree, TreePoint, DealtWith;
  }

  lemma FirstIsStuck(f: string, g: string, t: string)
    requires f != t
    ensures SticksAtDelete(Sticky(f, g, t), f, t)
  {
  }

  lemma FirstBefore(orig: Db, f: string, g: string, t: string, b: Books, rest: set<string>)
    requires LossRun(orig, f, g, t, b, rest) && f in rest && IsTree(orig.objects, f)
    ensures b.db == orig && g in rest && Root(f) in orig.objects
  {
  }

  /** The first tree: copied whole, and then its delete is refused. */
  lemma FirstSticks(orig: Db, rank: Rank, f: string, g: string, rest: set<string>, s: Step)
    requires LossStep(orig, rank, f, g, rest, s) && s.rel == f
    ensures s.outcome == Fails && LossRun(orig, f, g, Destination(orig.objects, f), s.after, rest - {s.rel})
  {
    hide Destination, Asked, Recorded, StepOk, StepPlanned, NothingIn, IsOrder, IsTree, DeviceId.Registry.KeepUnmoved;
    hide CopiedTree, MovedTree, TreePlanned;
    var t := Destination(orig.objects, f);
    LossStepHas(orig, rank, f, g, rest, s);
    FirstOutcome(orig, rank, f, g, rest, s);
    RefusedPlace(orig, g, t, s.before, rest, f);
  }

  lemma SecondOutcome(orig: Db, rank: Rank, f: string, g: string, rest: set<string>, s: Step)
    requires LossStep(orig, rank, f, g, rest, s) && s.rel == g
    ensures IsTree(orig.objects, g) && s.outcome == Done && f !in rest
    ensures var (reg, t) := Asked(orig.objects, s.before, g);
            && t == Destination(orig.objects, f)
            && s.after == Books(MovedTree(s.before.db, g, None, t, false), reg, s.before.complete + {t})
  {
    var t := Destination(orig.objects, f);
    LossStepHas(orig, rank, f, g, rest, s);
    AskedTarget(orig, rank, f, g, s.before, rest, g);
    assert f !in rest;
    NothingStopsSecond(f, g, t);
    StepHas(Sticky(f, g, t), orig.objects, s);
    hide Destination, Asked, LossStep, IsTree, NothingIn, DeviceId.Registry.KeepUnmoved, SticksAtDelete, RefusesRoot;
    hide MovedTree, TreePoint, TreeWrite;
  }

  lemma NothingStopsSecond(f: string, g: string, t: string)
    requires f != g
    ensures forall n: nat, w | TreeWrite(w, g, t) :: Sticky(f, g, t)(n, w) == Done
  {
  }

  /** The second one: nothing of its move is refused. */
  lemma SecondIsMoved(orig: Db, rank: Rank, f: string, g: string, rest: set<string>, s: Step)
    requires LossStep(orig, rank, f, g, rest, s) && s.rel == g
    ensures s.outcome == Done && LossRun(orig, f, g, Destination(orig.objects, f), s.after, rest - {s.rel})
  {
    hide Destination, Asked, Recorded, StepOk, StepPlanned, NothingIn, IsOrder, IsTree, CopiedTree, MovedTree;
    hide TreePlanned, DeviceId.Registry.Inverse;
    var t, reg := Destination(orig.objects, f), Asked(orig.objects, s.before, g).0;
    LossStepHas(orig, rank, f, g, rest, s);
    SecondOutcome(orig, rank, f, g, rest, s);
    AskedFresh(orig, g, t, s.before, rest, g);
    OneMore(orig, g, t, s.before.reg, reg, rest, g);
    assert s.before.reg.Inverse() by { RecordedInverse(orig, g, t, s.before.reg, rest); }
    StillHeld(s.before.reg, reg, KeyOf(orig.objects, g));
    NewHeld(reg, KeyOf(orig.objects, g));
  }

  lemma RecordedInverse(orig: Db, g: string, t: string, reg: DeviceId.Registry, rest: set<string>)
    requires Recorded(orig, g, t, reg, rest)
    ensures reg.Inverse()
  {
  }

  lemma NewHeld(reg: DeviceId.Registry, key: string)
    requires reg.Inverse() && key in reg.byKey
    ensures reg.byKey[key].prefix in reg.byPrefix
  {
  }

  // ----- the start -----

  lemma {:induction false} NoJournalsSeeded(orig: Db, listed: seq<string>, seeded: DeviceId.Registry)
    requires WellFormed(orig) && AreTrees(orig.objects, listed)
    ensures JournalSeeds(orig.objects, listed, seeded) == seeded
  {
    if listed != [] {
      NoJournalsSeeded(orig, listed[..|listed| - 1], seeded);
      assert orig.objects[Root(listed[|listed| - 1])].movingTo == None;
    }
  }

  /** On the untouched store the marked trees are complete and recorded, and all others wait. */
  lemma SeededMarked(orig: Db, g: string, t: string, s: Start)
    requires WellFormed(orig) && IsSeeded(s) && s.before == orig && Unmoved(orig.objects, g)
    ensures s.waiting == set r | r in Roots(orig.objects) && Unmoved(orig.objects, r)
    ensures Recorded(orig, g, t, s.first.reg, s.waiting) && forall p | p in s.first.complete ::
            p in s.first.reg.byPrefix
  {
    var (reg, complete) := MarkedSeeds(orig.objects, s.listed);
    MarkedSeedsRecord(orig.objects, s.listed);
    NoJournalsSeeded(orig, s.listed, reg);
    hide MarkedSeeds, JournalSeeds, TargetsFree;
    assert s.first.reg == reg && s.first.complete == complete;
    forall r | IsTree(orig.objects, r) ensures r in complete <==> Marked(orig.objects, r)
      ensures r in complete ==> KeyOf(orig.objects, r) in reg.byKey
    {
      MarkedKey(orig.objects, s.listed, reg, complete, KeyOf(orig.objects, r));
    }
    forall k | k in reg.byKey ensures exists h ::
        Owns(orig, h, k) && h !in s.waiting && reg.byKey[k].prefix == Place(g, t, h) {
      var p := reg.byKey[k].prefix;
      assert p in complete && Owns(orig, p, k);
    }
  }

  lemma LossStarts(orig: Db, rank: Rank, f: string, g: string, s: Start)
    requires WellFormed(orig) && Collide(orig, rank, f, g) && IsSeeded(s) && s.before == orig
    ensures LossRun(orig, f, g, Destination(orig.objects, f), s.first, s.waiting) && f in s.waiting
  {
    SeededMarked(orig, g, Destination(orig.objects, f), s);
    assert s.first.db == orig by { SeededDb(s); }
    assert Root(f) in orig.objects && Root(g) in orig.objects;
    hide IsSeeded, WellFormed, Recorded, CopiedTree, MovedTree, Destination;
  }

  /** Every step of that start. */
  lemma {:induction false} LossRuns(orig: Db, rank: Rank, f: string, g: string, s: Start, i: nat)
    requires WellFormed(orig) && IsOrder(rank) && Collide(orig, rank, f, g) && IsStart(rank, s) && s.before == orig
    requires s.plan == Sticky(f, g, Destination(orig.objects, f)) && i <= |s.steps|
    ensures LossRun(orig, f, g, Destination(orig.objects, f), BooksAt(s.first, s.steps, i),
            RestAt(s.waiting, s.steps, i))
    ensures forall k | 0 <= k < i :: s.steps[k].outcome != Crash
  {
    hide IsStart, IsSeeded, StepOk, StepPlanned, IsOrder, LossRun, WellFormed, Destination, IsEarliest;
    if i == 0 {
      assert IsSeeded(s) by { StartHas(rank, s); }
      LossStarts(orig, rank, f, g, s);
    } else {
      LossRuns(orig, rank, f, g, s, i - 1);
      StepAt(rank, s, i - 1);
      LossStepped(orig, rank, f, g, RestAt(s.waiting, s.steps, i - 1), s.steps[i - 1]);
    }
  }

  lemma LossStepped(orig: Db, rank: Rank, f: string, g: string, rest: set<string>, s: Step)
    requires LossStep(orig, rank, f, g, rest, s)
    ensures s.outcome != Crash && LossRun(orig, f, g, Destination(orig.objects, f), s.after, rest - {s.rel})
  {
    hide LossStep, LossRun, Destination;
    if s.rel == f {
      FirstSticks(orig, rank, f, g, rest, s);
    } else if s.rel == g {
      SecondIsMoved(orig, rank, f, g, rest, s);
    } else {
      OtherIsRefused(orig, rank, f, g, rest, s);
    }
  }

  // ----- what it leaves -----

  /** No tree of the device of `g` stands anywhere. */
  ghost predicate NoTreeOf(orig: Db, db: Db, g: string)
    requires IsTree(orig.objects, g)
  {
    forall r | IsTree(db.objects, r) :: KeyOf(db.objects, r) != KeyOf(orig.objects, g)
  }

  predicate SameName(a: Object, b: Object) {
    a.kind == b.kind && a.sku == b.sku && a.deviceId == b.deviceId
  }

  /** The first copy, marked, over a bare target; the old trees as they were but for the journal. */
  lemma FirstCopy(orig: Db, f: string, t: string)
    requires IsTree(orig.objects, f) && f != t && NothingIn(orig, t)
    ensures var db := CopiedTree(orig, f, None, t, false);
            && Marked(db.objects, t)
            && SameName(db.objects[Root(t)], orig.objects[Root(f)])
            && forall id | id in db.objects && !InTree(id, t) ::
               id in orig.objects && SameName(db.objects[id], orig.objects[id])
  {
    var job := Job(Journaled(orig, f, None, t, false), f, t, false);
    CopiedIs(orig, f, None, t, false);
    assert Root(f) in job.Sources() && Retree(Root(f), t) == Root(t) && InTree(Root(t), t);
    assert !job.Skips();
    CopiedBeyond(job);
  }

  /** A move onto a marked root the run does not know: the copy is skipped, and the tree goes. */
  lemma SecondGoes(db: Db, g: string, t: string)
    requires g != t && Marked(db.objects, t)
    ensures var after := MovedTree(db, g, None, t, false);
            && (forall id | id in after.objects :: !InTree(id, g) && id in db.objects)
            && (forall id | id in after.objects :: after.objects[id] == db.objects[id])
  {
    var job := Job(Journaled(db, g, None, t, false), g, t, false);
    CopiedIs(db, g, None, t, false);
    assert job.Skips();
  }

  lemma NothingIsLeft(orig: Db, f: string, g: string, t: string)
    requires WellFormed(orig) && IsTree(orig.objects, f) && IsTree(orig.objects, g) && f != g && f != t && g != t
             && NothingIn(orig, t)
    ensures NoTreeOf(orig, StoreThen(orig, f, g, t, {}), g)
  {
    var copied, last := CopiedTree(orig, f, None, t, false), StoreThen(orig, f, g, t, {});
    FirstCopy(orig, f, t);
    SecondGoes(copied, g, t);
    hide CopiedTree, MovedTree, TargetsFree;
    forall r | IsTree(last.objects, r) ensures KeyOf(last.objects, r) != KeyOf(orig.objects, g) {
      var h := if r == t then f else r;
      assert InTree(Root(r), r) && (r != t ==> !InTree(Root(r), t));
      NamedAlike(last.objects, r, orig.objects, h);
    }
  }

  lemma NamedAlike(objects: map<Id, Object>, r: string, before: map<Id, Object>, h: string)
    requires IsTree(objects, r) && Root(h) in before && SameName(objects[Root(r)], before[Root(h)]) && RootForm(h)
    ensures IsTree(before, h) && KeyOf(before, h) == KeyOf(objects, r)
  {
  }

  /** A device without a tree is not kept. */
  lemma LostIsNotKept(orig: Db, db: Db, g: string)
    requires IsTree(orig.objects, g) && NoTreeOf(orig, db, g)
             && (g in Destinations(orig.objects) ==> RootForm(Destinations(orig.objects)[g]))
    ensures !Kept(orig, db)
  {
    var moves := Destinations(orig.objects);
    hide Destinations, AliasesFollow, RestInv;
    assert InTree(Root(g), g);
    forall r | r == g || r == Home(moves, g) ensures !StandsBelow(orig, db, g, r) {
      assert LivesOn(orig, db, Root(g), r) ==> !IsTree(db.objects, r);
      assert !LivesOn(orig, db, Root(g), r);
    }
  }

  /**
   * A start on any store with two trees that want the same root, in which writes are refused but the process never
   * dies: it ends without any tree of the second device.
   */
  method LoseTheSecond(store: Store, rank: Rank, f: string, g: string, ghost orig: Db)
    returns (ghost start: Start)
    requires WellFormed(orig) && IsOrder(rank) && Collide(orig, rank, f, g) && store.View() == orig
    modifies store
    ensures IsStart(rank, start) && start.before == orig && start.end.db == store.View() && !Died(start)
    ensures NoTreeOf(orig, store.View(), g) && !Kept(orig, store.View())
  {
    hide WellFormed, IsOrder, IsStart, Kept, Destination, LossRun, NoTreeOf;
    var t := Destination(store.objects, f);
    store.StartOver(Sticky(f, g, t));
    var registry := new DeviceId.DeviceIdRegistry();
    var _, _, s := MigrateDeviceIds(store, registry, rank);
    start := s;
    LossEnds(orig, rank, f, g, start);
  }

  lemma LossEnds(orig: Db, rank: Rank, f: string, g: string, s: Start)
    requires WellFormed(orig) && IsOrder(rank) && Collide(orig, rank, f, g) && IsStart(rank, s) && s.before == orig
    requires s.plan == Sticky(f, g, Destination(orig.objects, f))
    ensures !Died(s) && IsTree(orig.objects, g) && NoTreeOf(orig, s.end.db, g) && !Kept(orig, s.end.db)
  {
    var t := Destination(orig.objects, f);
    LossRuns(orig, rank, f, g, s, |s.steps|);
    TargetIsBare(orig, rank, f, g);
    assert s.end.db == StoreThen(orig, f, g, t, {}) by { LossStore(orig, rank, f, g, t, s); }
    NothingIsLeft(orig, f, g, t);
    assert g in Destinations(orig.objects) ==> Destinations(orig.objects)[g] == t;
    LostIsNotKept(orig, s.end.db, g);
  }

  lemma LossStore(orig: Db, rank: Rank, f: string, g: string, t: string, s: Start)
    requires IsStart(rank, s) && !Died(s)
    requires LossRun(orig, f, g, t, BooksAt(s.first, s.steps, |s.steps|), RestAt(s.waiting, s.steps, |s.steps|))
    ensures s.end.db == StoreThen(orig, f, g, t, {})
  {
    hide IsSeeded, Ran, AllPoints, StoreThen;
  }

  // ----- two devices of one model -----

  const SKU := "h"
  const FIRST := "a1111"
  const SECOND := "b1111"
  const OLD_FIRST := "devices.h_x"
  const OLD_SECOND := "devices.h_y"

  function DeviceObject(deviceId: string): Object {
    BARE.(kind := Device, sku := Some(SKU), deviceId := Some(deviceId))
  }

  /** A store of version 2 with two devices of a model whose ids end alike. */
  const TWO := Db(map[Root(OLD_FIRST) := DeviceObject(FIRST), Root(OLD_SECOND) := DeviceObject(SECOND),
                      Below(OLD_SECOND, ["power"]) := BARE.(kind := State)],
                  map[Below(OLD_SECOND, ["power"]) := Datum(Some(Val(1)), true, None, None, None)], map[])

  lemma {:induction false} TailIsPlain(s: string)
    requires forall i | 0 <= i < |s| :: '0' <= s[i] <= '9'
    ensures DeviceId.Normalized(s) == s && DeviceId.KeepAlnum(s) == s
  {
    if s != "" { TailIsPlain(s[1..]); }
  }

  lemma ShortIdsMeet()
    ensures DeviceId.Normalized(FIRST) == FIRST && DeviceId.Normalized(SECOND) == SECOND
    ensures DeviceId.IdPiece(FIRST) == FIRST && DeviceId.IdPiece(SECOND) == SECOND
    ensures DeviceId.ShortId(SKU, FIRST) == "h-1111" == DeviceId.ShortId(SKU, SECOND)
  {
    PlainId("a", FIRST);
    PlainId("b", SECOND);
    assert DeviceId.Slug(SKU[1..], false) == [];
    assert DeviceId.ModelPart(SKU) == SKU;
    hide DeviceId.Normalized, DeviceId.KeepAlnum, DeviceId.ModelPart;
    assert FIRST[1..] == "1111" == SECOND[1..];
  }

  lemma PlainId(first: string, id: string)
    requires (first == "a" || first == "b") && id == first + "1111"
    ensures DeviceId.Normalized(id) == id && DeviceId.IdPiece(id) == id
  {
    TailIsPlain("1111");
    assert id[1..] == "1111" && first + "1111" == id;
  }

  /** Its two trees. */
  lemma TreesOfTwo()
    ensures forall r :: IsTree(TWO.objects, r) <==> r == OLD_FIRST || r == OLD_SECOND
    ensures Unmoved(TWO.objects, OLD_FIRST) && Unmoved(TWO.objects, OLD_SECOND) && OLD_FIRST != OLD_SECOND
    ensures DeviceOf(TWO.objects, OLD_FIRST) == (SKU, FIRST) && DeviceOf(TWO.objects, OLD_SECOND) == (SKU, SECOND)
  {
    assert OLD_FIRST[10] == 'x' && OLD_SECOND[10] == 'y';
    RootOfTwo(OLD_FIRST);
    RootOfTwo(OLD_SECOND);
    assert SKU !in PSEUDO_SKUS by { assert |SKU| == 1; }
  }

  lemma RootOfTwo(root: string)
    requires root == OLD_FIRST || root == OLD_SECOND
    ensures RootForm(root) && '_' in root
  {
    assert FOLDERS[0] <= root && FolderLength(root) == 8;
    assert root[8] == 'h' && root[9] == '_' && (root[10] == 'x' || root[10] == 'y');
    assert |root[8..]| == 3 && forall i | 0 <= i < 3 :: root[8..][i] == root[8 + i];
  }

  lemma TwoIsWellFormed()
    ensures WellFormed(TWO)
  {
    TreesOfTwo();
    KeysOfTwo();
    assert TargetsFree(TWO) by {
      RootOfTwo(OLD_FIRST);
      RootOfTwo(OLD_SECOND);
      LegacyTargetsAreFree(TWO);
    }
    hide TargetsFree, IsTree, DeviceId.MapKey;
  }

  /** Whichever sorts first: the theorem above has such a store, and a well-formed one. */
  lemma TwoOfAModelCollide(rank: Rank)
    requires IsOrder(rank)
    ensures WellFormed(TWO)
    ensures Collide(TWO, rank, OLD_FIRST, OLD_SECOND) || Collide(TWO, rank, OLD_SECOND, OLD_FIRST)
  {
    hide WellFormed, Destination, Unmoved;
    TwoIsWellFormed();
    TreesOfTwo();
    WantsShort(OLD_FIRST);
    WantsShort(OLD_SECOND);
    assert rank(OLD_FIRST) != rank(OLD_SECOND);
  }

  lemma KeysOfTwo()
    ensures DeviceId.MapKey(SKU, FIRST) != DeviceId.MapKey(SKU, SECOND)
  {
    ShortIdsMeet();
    assert DeviceId.MapKey(SKU, FIRST)[2] == 'a' && DeviceId.MapKey(SKU, SECOND)[2] == 'b';
  }

  lemma WantsShort(f: string)
    requires f == OLD_FIRST || f == OLD_SECOND
    ensures IsTree(TWO.objects, f) && Destination(TWO.objects, f) == "devices.h-1111"
  {
    TreesOfTwo();
    ShortIdsMeet();
    assert HeldIds(TWO.objects, "devices") == {};
    assert DeviceId.Free("h-1111", {}) by { assert "h-1111"[0] != DeviceId.RESERVED[0]; }
    assert DeviceId.Folder(SKU) == "devices" by { assert |SKU| == 1; }
    assert "devices" + "." + "h-1111" == "devices.h-1111";
  }

  // ----- an order of texts -----

  /** A text as a number, so that there is an order of all texts to handle trees in. */
  function TextNumber(s: string): int {
    if s == "" then 0 else s[0] as int + 1 + 0x20_0000 * TextNumber(s[1..])
  }

  lemma {:induction false} TextNumberDetermines(a: string, b: string)
    requires TextNumber(a) == TextNumber(b)
    ensures a == b
  {
    TextNumberSize(a);
    TextNumberSize(b);
    if a != "" && b != "" {
      TextNumberDetermines(a[1..], b[1..]);
      assert a == [a[0]] + a[1..] && b == [b[0]] + b[1..];
    }
  }

  lemma {:induction false} TextNumberSize(s: string)
    ensures TextNumber(s) >= 0 && (TextNumber(s) == 0 <==> s == "")
  {
    if s != "" { TextNumberSize(s[1..]); }
  }

  lemma OrdersExist()
    ensures IsOrder((s: string) => TextNumber(s))
  {
    forall a, b | TextNumber(a) == TextNumber(b) ensures a == b { TextNumberDetermines(a, b); }
  }
}
