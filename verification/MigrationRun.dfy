/**
 * The start-up migration as it runs: record every tree in the registry, then move each unmarked one with a journal. A
 * write may be refused, and then the run goes on, or be the last one before the process dies. What the run did is
 * written down step by step; the modules built on this one say what it keeps.
 */
module MigrationRun {
  import opened Options
  import opened ObjectIds
  import opened DeviceMove
  import opened MoveInvariant
  import DeviceId

  // ----- the delete -----

  /** Deepest first: the key is the number of segments, whatever the sort does with equals. */
  function Shallowness(id: Id): int {
    if id.Below? then -|id.path| else 1
  }

  method Deepest(s: set<Id>) returns (id: Id)
    requires s != {}
    ensures id in s && forall o | o in s :: Shallowness(id) <= Shallowness(o)
  {
    MinExists(s, Shallowness);
    id :| id in s && forall o | o in s :: Shallowness(id) <= Shallowness(o);
  }

  lemma DeeperFirst(ids: set<Id>, gone: set<Id>)
    requires gone <= ids && forall id, other | id in gone && other in ids - gone ::
             Shallowness(id) <= Shallowness(other)
    ensures DeepFirst(ids, gone)
  {
  }

  lemma NextDeleted(db: Db, f: string, ids: set<Id>, rest: set<Id>, id: Id)
    requires ids == TreeIds(db.objects, f) && rest <= ids && id in rest && (Root(f) in ids ==> Root(f) in rest)
    requires forall o | o in rest :: Shallowness(id) <= Shallowness(o)
    requires forall gone, other | gone in ids - rest && other in rest :: Shallowness(gone) <= Shallowness(other)
    ensures id == Root(f) ==> rest == {id}
    ensures DeleteOrder(db, f, ids - rest) && DeleteOrder(db, f, ids - (rest - {id}))
    ensures Deleted(db, ids - (rest - {id})) == Deleted(Deleted(db, ids - rest), {id})
  {
    DeeperFirst(ids, ids - rest);
    DeeperFirst(ids, ids - (rest - {id}));
    assert id == Root(f) ==> rest == {id};
    assert ids - (rest - {id}) == ids - rest + {id};
  }

  ghost predicate CoversDelete(p: Db -> bool, db: Db, f: string) {
    forall gone {:trigger Deleted(db, gone)} | DeleteOrder(db, f, gone) :: p(Deleted(db, gone))
  }

  ghost predicate RefusesDeletes(plan: Plan, f: string) {
    forall n: nat, id | InTree(id, f) :: plan(n, Del(id)) == Fails
  }

  method DeleteOne(store: Store, id: Id, ghost watch: Watch) returns (r: Outcome)
    requires Tracked(store, watch, Done) && watch.kinds(Del(id))
    requires watch.p(store.View()) && watch.p(Deleted(store.View(), {id}))
    modifies store
    ensures Tracked(store, watch, r) && r == watch.plan(old(store.writes), Del(id))
    ensures store.View() == if r == Done then Deleted(old(store.View()), {id}) else old(store.View())
  {
    hide Follows;
    ghost var trace, before := store.trace, store.View();
    r := store.DelObject(id);
    FollowsOneMore(store.plan, trace, watch.start, |watch.before|, before, Point(Del(id), r, store.View()));
  }

  /** Delete the old ids one by one, the root with the journal last. */
  method RemoveTree(store: Store, f: string, ghost watch: Watch) returns (r: Outcome)
    requires Tracked(store, watch, Done) && CoversDelete(watch.p, store.View(), f)
    requires forall id | InTree(id, f) :: watch.kinds(Del(id))
    modifies store
    ensures Tracked(store, watch, r)
    ensures r != Done ==> exists n: nat, id | InTree(id, f) :: watch.plan(n, Del(id)) == r
    ensures r == Done ==> store.View() == Deleted(old(store.View()), TreeIds(old(store.objects), f))
    ensures TreeIds(old(store.objects), f) != {} && RefusesDeletes(watch.plan, f) ==>
              r == Fails && store.View() == old(store.View())
  {
    hide Tracked, DeleteOrder, DeepFirst;
    var rest := TreeIds(store.objects, f);
    ghost var ids, here := rest, store.View();
    assert Deleted(here, ids - rest) == here;
    while rest != {}
      invariant rest <= ids && (rest != {} && Root(f) in ids ==> Root(f) in rest)
      invariant forall gone, other | gone in ids - rest && other in rest :: Shallowness(gone) <= Shallowness(other)
      invariant store.View() == Deleted(here, ids - rest)
      invariant Tracked(store, watch, Done)
      invariant RefusesDeletes(watch.plan, f) ==> rest == ids
      decreases rest
    {
      var id := Deepest(rest);
      NextDeleted(here, f, ids, rest, id);
      r := DeleteOne(store, id, watch);
      if r != Done { return; }
      rest := rest - {id};
    }
    assert ids - rest == ids;
    r := Done;
  }

  // ----- one tree -----

  /** The store with the journal, where one is written. */
  function Journaled(db: Db, f: string, movingTo: Option<string>, t: string, fill: bool): Db {
    if !fill && movingTo != Some(t) then db.(objects := Extended(db.objects, Root(f), Journal(t))) else db
  }

  function CopiedTree(db: Db, f: string, movingTo: Option<string>, t: string, fill: bool): Db {
    Job(Journaled(db, f, movingTo, t, fill), f, t, fill).Copied()
  }

  /** The store after a move every write of which went through. */
  function MovedTree(db: Db, f: string, movingTo: Option<string>, t: string, fill: bool): Db {
    var copied := CopiedTree(db, f, movingTo, t, fill);
    Deleted(copied, TreeIds(copied.objects, f))
  }

  ghost predicate CoversMove(p: Db -> bool, db: Db, f: string, movingTo: Option<string>, t: string, fill: bool) {
    && p(Journaled(db, f, movingTo, t, fill))
    && Covers(p, Job(Journaled(db, f, movingTo, t, fill), f, t, fill))
    && CoversDelete(p, CopiedTree(db, f, movingTo, t, fill), f)
  }

  /** A database a move can be stopped at. */
  ghost predicate MovePoint(db: Db, f: string, movingTo: Option<string>, t: string, fill: bool, d: Db) {
    var job := Job(Journaled(db, f, movingTo, t, fill), f, t, fill);
    || d == db || d == job.base
    || (exists stage :: job.Reaches(stage) && d == job.At(stage))
    || (exists gone {:trigger Deleted(job.Copied(), gone)} ::
        DeleteOrder(job.Copied(), f, gone) && d == Deleted(job.Copied(), gone))
  }

  predicate MoveWrite(w: Write, f: string, t: string) {
    CopyWrite(w, t) || w == Extend(Root(f), Journal(t)) || (w.Del? && InTree(w.id, f))
  }

  /** The plan lets the copy through and refuses the delete of the old tree. */
  ghost predicate SticksAtDelete(plan: Plan, f: string, t: string) {
    && (forall n: nat, w | CopyWrite(w, t) :: plan(n, w) == Done)
    && (forall n: nat :: plan(n, Extend(Root(f), Journal(t))) == Done)
    && RefusesDeletes(plan, f)
  }

  /** Journal, copy, delete. */
  method MoveTree(store: Store, rel: string, movingTo: Option<string>, target: string, fill: bool, ghost watch: Watch)
    returns (r: Outcome)
    requires rel != target && Tracked(store, watch, Done) && watch.p(store.View())
    requires CoversMove(watch.p, store.View(), rel, movingTo, target, fill)
    requires forall w | MoveWrite(w, rel, target) :: watch.kinds(w)
    modifies store
    ensures Tracked(store, watch, r)
    ensures r != Done ==> exists n: nat, w | MoveWrite(w, rel, target) :: watch.plan(n, w) == r
    ensures r == Done ==> store.View() == MovedTree(old(store.View()), rel, movingTo, target, fill)
    ensures !fill && movingTo != Some(target)
            && (forall n: nat :: watch.plan(n, Extend(Root(rel), Journal(target))) == Fails) ==>
              r == Fails && store.View() == old(store.View())
    ensures Root(rel) in old(store.objects) && SticksAtDelete(watch.plan, rel, target) ==>
              r == Fails && store.View() == CopiedTree(old(store.View()), rel, movingTo, target, fill)
  {
    hide Tracked, Covers, CoversDelete, CopiedTree;
    ghost var before := store.View();
    if !fill && movingTo != Some(target) {
      r := PutPatch(store, Root(rel), Journal(target), watch);
      if r != Done { return; }
    }
    ghost var job := Job(store.View(), rel, target, fill);
    assert job.base == Journaled(before, rel, movingTo, target, fill);
    assert CopiedTree(before, rel, movingTo, target, fill) == job.Copied() by {
      CopiedIs(before, rel, movingTo, target, fill);
    }
    r := CopyDeviceTree(store, rel, target, fill, watch);
    if r != Done { return; }
    if Root(rel) in before.objects {
      CopiedBeyond(job);
      assert Root(rel) in TreeIds(store.objects, rel);
    }
    r := RemoveTree(store, rel, watch);
  }

  lemma CopiedIs(db: Db, f: string, movingTo: Option<string>, t: string, fill: bool)
    ensures CopiedTree(db, f, movingTo, t, fill) == Job(Journaled(db, f, movingTo, t, fill), f, t, fill).Copied()
  {
  }

  lemma CopiedBeyond(job: Job)
    requires job.Legal()
    ensures forall id | !InTree(id, job.to) :: id in job.Copied().objects <==> id in job.base.objects
    ensures forall id | !InTree(id, job.to) && id in job.base.objects ::
            job.Copied().objects[id] == job.base.objects[id]
  {
  }

  /** The store with the mark on a root. */
  function Extension(db: Db, rel: string): Db {
    db.(objects := Extended(db.objects, Root(rel), Mark))
  }

  // ----- the trees of a start -----

  /** The journal of a tree; an empty text is none. */
  function JournalOf(o: Object): Option<string> {
    if o.movingTo.Some? && o.movingTo.value != "" then o.movingTo else None
  }

  /** `findTrees`: every device object that names its device, by its root. */
  function Roots(objects: map<Id, Object>): set<string> {
    set id | id in objects && id.Below? && id.path == [] && IsTree(objects, id.root) :: id.root
  }

  predicate Final(objects: map<Id, Object>, r: string) {
    IsTree(objects, r) && Marked(objects, r) && JournalOf(objects[Root(r)]) == None
  }

  /** The trees in the order the listing gives them, whichever that is. */
  ghost predicate IsListing(objects: map<Id, Object>, listed: seq<string>) {
    && (forall r :: r in listed <==> r in Roots(objects))
    && (forall i, j | 0 <= i < j < |listed| :: listed[i] != listed[j])
  }

  method ListTrees(objects: map<Id, Object>) returns (listed: seq<string>)
    ensures IsListing(objects, listed)
  {
    var rest := Roots(objects);
    listed := [];
    while rest != {}
      invariant rest <= Roots(objects)
      invariant forall r :: r in listed <==> r in Roots(objects) - rest
      invariant forall i, j | 0 <= i < j < |listed| :: listed[i] != listed[j]
      decreases rest
    {
      var r :| r in rest;
      assert r !in listed;
      rest := rest - {r};
      listed := listed + [r];
    }
  }

  predicate AreTrees(objects: map<Id, Object>, listed: seq<string>) {
    forall i | 0 <= i < |listed| :: IsTree(objects, listed[i])
  }

  /** First the trees with the mark: their ids are taken. */
  function MarkedSeeds(objects: map<Id, Object>, listed: seq<string>): (DeviceId.Registry, set<string>)
    requires AreTrees(objects, listed)
  {
    if listed == [] then (DeviceId.EMPTY, {})
    else
      var r := listed[|listed| - 1];
      var (reg, complete) := MarkedSeeds(objects, listed[..|listed| - 1]);
      if !Final(objects, r) then (reg, complete)
      else
        var (after, recorded) := reg.Seed(objects[Root(r)].sku.value, objects[Root(r)].deviceId.value, r);
        (after, if recorded then complete + {r} else complete)
  }

  /** A tree with a journal that leads elsewhere. */
  predicate Interrupted(objects: map<Id, Object>, r: string)
    requires IsTree(objects, r)
  {
    && !Marked(objects, r) && JournalOf(objects[Root(r)]).Some? && JournalOf(objects[Root(r)]) != Some(r)
  }

  /** Then the targets of interrupted moves: the journal decides. */
  function JournalSeeds(objects: map<Id, Object>, listed: seq<string>, seeded: DeviceId.Registry): DeviceId.Registry
    requires AreTrees(objects, listed)
    decreases |listed|
  {
    if listed == [] then seeded
    else
      var r := listed[|listed| - 1];
      var reg := JournalSeeds(objects, listed[..|listed| - 1], seeded);
      if !Interrupted(objects, r) then reg
      else reg.Seed(objects[Root(r)].sku.value, objects[Root(r)].deviceId.value, JournalOf(objects[Root(r)]).value).0
  }

  method SeedMarked(registry: DeviceId.DeviceIdRegistry, objects: map<Id, Object>, listed: seq<string>)
    returns (complete: set<string>)
    requires AreTrees(objects, listed) && registry.View() == DeviceId.EMPTY
    modifies registry
    ensures (registry.View(), complete) == MarkedSeeds(objects, listed)
  {
    hide DeviceId.Registry.Seed;
    complete := {};
    for i := 0 to |listed|
      invariant (registry.View(), complete) == MarkedSeeds(objects, listed[..i])
    {
      assert listed[..i + 1][..i] == listed[..i];
      var r := listed[i];
      var o := objects[Root(r)];
      if o.idScheme == Some(DeviceId.ID_SCHEME) && JournalOf(o) == None {
        var recorded := registry.Seed(o.sku.value, o.deviceId.value, r);
        if recorded {
          complete := complete + {r};
        }
      }
    }
    assert listed[..|listed|] == listed;
  }

  method SeedJournals(registry: DeviceId.DeviceIdRegistry, objects: map<Id, Object>, listed: seq<string>)
    requires AreTrees(objects, listed)
    modifies registry
    ensures registry.View() == JournalSeeds(objects, listed, old(registry.View()))
  {
    hide DeviceId.Registry.Seed;
    for i := 0 to |listed|
      invariant registry.View() == JournalSeeds(objects, listed[..i], old(registry.View()))
    {
      assert listed[..i + 1][..i] == listed[..i];
      var r := listed[i];
      var o := objects[Root(r)];
      if o.idScheme != Some(DeviceId.ID_SCHEME) && JournalOf(o).Some? && JournalOf(o).value != r {
        var _ := registry.Seed(o.sku.value, o.deviceId.value, JournalOf(o).value);
      }
    }
    assert listed[..|listed|] == listed;
  }

  // ----- what a run does, step by step -----

  /** Between two trees: the store, the registry, and the trees known to be complete. */
  datatype Books = Books(db: Db, reg: DeviceId.Registry, complete: set<string>)

  /** One tree of the loop: what came of it, and every write that was tried. */
  datatype Step = Step(rel: string, outcome: Outcome, before: Books, after: Books, points: seq<Point>)

  /** The device a listed tree names. */
  function DeviceOf(listing: map<Id, Object>, rel: string): (string, string)
    requires IsTree(listing, rel)
  {
    (listing[Root(rel)].sku.value, listing[Root(rel)].deviceId.value)
  }

  /** What the registry answers for a tree. */
  function Asked(listing: map<Id, Object>, b: Books, rel: string): (DeviceId.Registry, string)
    requires IsTree(listing, rel)
  {
    b.reg.PrefixFor(DeviceOf(listing, rel).0, DeviceOf(listing, rel).1)
  }

  /** The writes for one tree: its mark, or its move. */
  predicate TreeWrite(w: Write, rel: string, target: string) {
    if target == rel then w == Extend(Root(rel), Mark) else MoveWrite(w, rel, target)
  }

  /** A database the handling of a tree can stop at. */
  ghost predicate TreePoint(listing: map<Id, Object>, b: Books, rel: string, target: string, d: Db)
    requires IsTree(listing, rel)
  {
    if target == rel then d == b.db || d == Extension(b.db, rel)
    else MovePoint(b.db, rel, JournalOf(listing[Root(rel)]), target, target in b.complete, d)
  }

  /** The store once a tree was dealt with. */
  function DealtWith(listing: map<Id, Object>, b: Books, rel: string, target: string): Db
    requires IsTree(listing, rel)
  {
    if target == rel then Extension(b.db, rel)
    else MovedTree(b.db, rel, JournalOf(listing[Root(rel)]), target, target in b.complete)
  }

  /** A step of the loop: dealt with, refused and kept where it is for this session, or died in. */
  ghost predicate StepOk(listing: map<Id, Object>, s: Step) {
    && IsTree(listing, s.rel)
    && var (reg, target) := Asked(listing, s.before, s.rel);
    && (forall i | 0 <= i < |s.points| ::
          && TreePoint(listing, s.before, s.rel, target, s.points[i].db)
          && TreeWrite(s.points[i].write, s.rel, target)
          && s.points[i].outcome == if i == |s.points| - 1 then s.outcome else Done)
    && Chained(s.before.db, s.points, s.after.db) && (s.outcome != Done ==> s.points != [])
    && TreePoint(listing, s.before, s.rel, target, s.after.db)
    && match s.outcome
       case Done =>
         s.after == Books(DealtWith(listing, s.before, s.rel, target), reg, s.before.complete + {target})
       case Fails =>
         s.after == Books(s.after.db, reg.KeepUnmoved(DeviceOf(listing, s.rel).0, DeviceOf(listing, s.rel).1, s.rel),
             s.before.complete)
       case Crash =>
         s.after == Books(s.after.db, reg, s.before.complete)
  }

  /**
   * What the plan decides of a tree: only it stops a write, and what it refuses from the start leaves all as it was.
   */
  ghost predicate TreePlanned(plan: Plan, listing: map<Id, Object>, b: Books, rel: string, target: string, r: Outcome,
      after: Db)
    requires IsTree(listing, rel)
  {
    var movingTo, fill := JournalOf(listing[Root(rel)]), target in b.complete;
    && (r != Done ==> exists n: nat, w | TreeWrite(w, rel, target) :: plan(n, w) == r)
    && (r != Done && target == rel ==> after == b.db)
    && ((target == rel || (!fill && movingTo != Some(target))) && RefusesRoot(plan, rel) ==>
        r == Fails && after == b.db)
    && (target != rel && Root(rel) in b.db.objects && SticksAtDelete(plan, rel, target) ==>
          r == Fails && after == CopiedTree(b.db, rel, movingTo, target, fill))
  }

  /** Neither a journal nor a mark gets onto the root. */
  ghost predicate RefusesRoot(plan: Plan, rel: string) {
    forall n: nat, patch :: plan(n, Extend(Root(rel), patch)) == Fails
  }

  ghost predicate StepPlanned(plan: Plan, listing: map<Id, Object>, s: Step)
    requires IsTree(listing, s.rel)
  {
    TreePlanned(plan, listing, s.before, s.rel, Asked(listing, s.before, s.rel).1, s.outcome, s.after.db)
  }

  method MarkRoot(store: Store, rel: string, ghost watch: Watch) returns (r: Outcome)
    requires Tracked(store, watch, Done) && watch.p(store.View()) && watch.p(Extension(store.View(), rel))
    requires watch.kinds(Extend(Root(rel), Mark))
    modifies store
    ensures Tracked(store, watch, r) && r == watch.plan(old(store.writes), Extend(Root(rel), Mark))
    ensures store.View() == if r == Done then Extension(old(store.View()), rel) else old(store.View())
  {
    r := PutPatch(store, Root(rel), Mark, watch);
  }

  /** The points of a move are all that a move can be stopped at. */
  lemma PointsCovered(db: Db, f: string, movingTo: Option<string>, t: string, fill: bool, p: Db -> bool)
    requires forall d | MovePoint(db, f, movingTo, t, fill, d) :: p(d)
    ensures p(db) && CoversMove(p, db, f, movingTo, t, fill)
  {
    var job := Job(Journaled(db, f, movingTo, t, fill), f, t, fill);
    CopiedIs(db, f, movingTo, t, fill);
    hide Journaled, CopiedTree, Job.Copied, Job.At, DeleteOrder;
    forall stage | job.Reaches(stage) ensures p(job.At(stage)) {
      assert MovePoint(db, f, movingTo, t, fill, job.At(stage));
    }
    forall gone | DeleteOrder(job.Copied(), f, gone) ensures p(Deleted(job.Copied(), gone)) {
      assert MovePoint(db, f, movingTo, t, fill, Deleted(job.Copied(), gone));
    }
  }

  /** A start's writes so far met what was planned for them. */
  ghost predicate Obeys(store: Store)
    reads store
  {
    store.writes == |store.trace| && forall i | 0 <= i < |store.trace| ::
        store.trace[i].outcome == store.plan(i, store.trace[i].write)
  }

  ghost method WatchTree(store: Store, listing: map<Id, Object>, b: Books, rel: string, target: string)
    returns (watch: Watch)
    requires IsTree(listing, rel) && Obeys(store) && store.View() == b.db
    ensures Tracked(store, watch, Done) && watch.p(store.View())
    ensures watch.plan == store.plan && watch.start == store.View() && watch.before == store.trace
    ensures forall d :: watch.p(d) <==> TreePoint(listing, b, rel, target, d)
    ensures forall w :: watch.kinds(w) <==> TreeWrite(w, rel, target)
  {
    watch := Watch(d => TreePoint(listing, b, rel, target, d), w => TreeWrite(w, rel, target), store.plan,
        store.View(), store.trace);
  }

  /** What was watched is what the step records. */
  lemma Watched(store: Store, watch: Watch, r: Outcome)
    requires Tracked(store, watch, r)
    ensures Obeys(store) && store.plan == watch.plan
    ensures var points := store.trace[|watch.before|..];
            && store.trace == watch.before + points
            && (forall i | 0 <= i < |points| ::
                watch.p(points[i].db) && watch.kinds(points[i].write)
                && points[i].outcome == if i == |points| - 1 then r else Done)
            && Chained(watch.start, points, store.View()) && (r != Done ==> points != [])
    ensures watch.p(watch.start) ==> watch.p(store.View())
  {
    hide Applied;
  }

  /** Inside the `try`: mark the tree where it is, or move it. */
  method TryTree(store: Store, listing: map<Id, Object>, rel: string, target: string, complete: set<string>,
                 ghost b: Books, ghost watch: Watch)
    returns (r: Outcome)
    requires IsTree(listing, rel) && store.View() == b.db && complete == b.complete
    requires Tracked(store, watch, Done) && watch.p(store.View())
    requires forall d :: watch.p(d) <==> TreePoint(listing, b, rel, target, d)
    requires forall w :: watch.kinds(w) <==> TreeWrite(w, rel, target)
    modifies store
    ensures Tracked(store, watch, r)
    ensures r == Done ==> store.View() == DealtWith(listing, b, rel, target)
    ensures TreePlanned(watch.plan, listing, b, rel, target, r, store.View())
  {
    hide Tracked, MovePoint, CoversMove, MovedTree, CopiedTree, MoveWrite, SticksAtDelete;
    if target == rel {
      r := MarkRoot(store, rel, watch);
      assert TreeWrite(Extend(Root(rel), Mark), rel, target);
    } else {
      var movingTo, fill := JournalOf(listing[Root(rel)]), target in complete;
      PointsCovered(b.db, rel, movingTo, target, fill, watch.p);
      r := MoveTree(store, rel, movingTo, target, fill, watch);
    }
  }

  lemma StepIsOk(plan: Plan, listing: map<Id, Object>, s: Step)
    requires IsTree(listing, s.rel)
    requires var (reg, target) := Asked(listing, s.before, s.rel);
             && (forall i | 0 <= i < |s.points| ::
                   && TreePoint(listing, s.before, s.rel, target, s.points[i].db)
                   && TreeWrite(s.points[i].write, s.rel, target)
                   && s.points[i].outcome == if i == |s.points| - 1 then s.outcome else Done)
             && Chained(s.before.db, s.points, s.after.db) && (s.outcome != Done ==> s.points != [])
             && TreePoint(listing, s.before, s.rel, target, s.after.db)
             && (s.outcome == Done ==> s.after.db == DealtWith(listing, s.before, s.rel, target))
             && s.after.reg == (if s.outcome == Fails
                                then reg.KeepUnmoved(DeviceOf(listing, s.rel).0, DeviceOf(listing, s.rel).1, s.rel)
                                else reg)
             && s.after.complete == (if s.outcome == Done then s.before.complete + {target} else s.before.complete)
             && TreePlanned(plan, listing, s.before, s.rel, target, s.outcome, s.after.db)
    ensures StepOk(listing, s) && StepPlanned(plan, listing, s)
  {
    hide TreePoint, TreePlanned, Asked, DealtWith, DeviceId.Registry.KeepUnmoved, Chained, TreeWrite;
  }

  /** The body of the loop: mark the tree where it is, or move it; a refused write leaves it to the next start. */
  method HandleTree(store: Store, registry: DeviceId.DeviceIdRegistry, listing: map<Id, Object>, complete: set<string>,
      rel: string)
    returns (r: Outcome, target: string, ghost s: Step)
    requires IsTree(listing, rel) && Obeys(store)
    modifies store, registry
    ensures Obeys(store) && store.plan == old(store.plan) && store.trace == old(store.trace) + s.points
    ensures s.rel == rel && s.outcome == r && s.before == Books(old(store.View()), old(registry.View()), complete)
    ensures s.after == Books(store.View(), registry.View(), if r == Done then complete + {target} else complete)
    ensures target == Asked(listing, s.before, rel).1
    ensures StepOk(listing, s) && StepPlanned(store.plan, listing, s)
  {
    hide Tracked, TreePoint, TreeWrite, TreePlanned, Obeys, StepOk, StepPlanned, DealtWith, Chained;
    hide DeviceId.Registry.PrefixFor, DeviceId.Registry.KeepUnmoved;
    var o := listing[Root(rel)];
    ghost var b, points := Books(store.View(), registry.View(), complete), store.trace;
    target := registry.PrefixFor(o.sku.value, o.deviceId.value);
    ghost var watch := WatchTree(store, listing, b, rel, target);
    r := TryTree(store, listing, rel, target, complete, b, watch);
    Watched(store, watch, r);
    if r == Fails {
      registry.KeepUnmoved(o.sku.value, o.deviceId.value, rel);
    }
    s := Step(rel, r, b, Books(store.View(), registry.View(), if r == Done then complete + {target} else complete),
        store.trace[|points|..]);
    StepIsOk(store.plan, listing, s);
  }

  lemma CoveredPoint(db: Db, f: string, movingTo: Option<string>, t: string, fill: bool, p: Db -> bool, d: Db)
    requires p(db) && CoversMove(p, db, f, movingTo, t, fill) && MovePoint(db, f, movingTo, t, fill, d)
    ensures p(d)
  {
    CopiedIs(db, f, movingTo, t, fill);
    hide Journaled, CopiedTree, Job.Copied, Job.At, DeleteOrder;
  }

  // ----- a whole start -----

  /** Where a tree sorts: the source compares device ids and then object ids, the same way at every start. */
  type Rank = string -> int

  ghost predicate IsOrder(rank: Rank) {
    forall a, b | rank(a) == rank(b) :: a == b
  }

  predicate IsEarliest(rank: Rank, rest: set<string>, r: string) {
    r in rest && forall o | o in rest :: rank(r) <= rank(o)
  }

  method Earliest(rank: Rank, rest: set<string>) returns (r: string)
    requires rest != {}
    ensures IsEarliest(rank, rest, r)
  {
    r :| r in rest;
    var others := rest - {r};
    while others != {}
      invariant others <= rest && r in rest && forall o | o in rest - others :: rank(r) <= rank(o)
      decreases others
    {
      var o :| o in others;
      others := others - {o};
      if rank(o) < rank(r) { r := o; }
    }
  }

  /** The books before step `i`. */
  function BooksAt(b: Books, steps: seq<Step>, i: nat): Books
    requires i <= |steps|
  {
    if i == 0 then b else steps[i - 1].after
  }

  /** The trees still waiting before step `i`. */
  function RestAt(rest: set<string>, steps: seq<Step>, i: nat): set<string>
    requires i <= |steps|
  {
    if i == 0 then rest else RestAt(rest, steps, i - 1) - {steps[i - 1].rel}
  }

  /** The steps run from `b` over the waiting trees in order; only the last one can be where the process died. */
  ghost predicate Ran(rank: Rank, plan: Plan, listing: map<Id, Object>, b: Books, rest: set<string>, steps: seq<Step>) {
    forall i | 0 <= i < |steps| :: RanStep(rank, plan, listing, b, rest, steps, i)
  }

  ghost predicate RanStep(rank: Rank, plan: Plan, listing: map<Id, Object>, b: Books, rest: set<string>,
      steps: seq<Step>, i: nat)
    requires i < |steps|
  {
    && StepOk(listing, steps[i]) && StepPlanned(plan, listing, steps[i])
    && steps[i].before == BooksAt(b, steps, i)
    && IsEarliest(rank, RestAt(rest, steps, i), steps[i].rel)
    && (steps[i].outcome == Crash ==> i == |steps| - 1)
  }

  /** Every write of the steps, in turn. */
  function AllPoints(steps: seq<Step>): seq<Point> {
    if steps == [] then [] else AllPoints(steps[..|steps| - 1]) + steps[|steps| - 1].points
  }

  lemma ChainsJoin(start: Db, a: seq<Point>, mid: Db, b: seq<Point>, end: Db)
    requires Chained(start, a, mid) && Chained(mid, b, end)
    ensures Chained(start, a + b, end)
  {
    hide Applied;
    var all := a + b;
    forall i | 0 <= i < |all| ensures Applied(DbBefore(start, all, i), all[i]) {
      if i < |a| {
        assert all[i] == a[i] && DbBefore(start, all, i) == DbBefore(start, a, i);
      } else {
        assert all[i] == b[i - |a|] && DbBefore(start, all, i) == DbBefore(mid, b, i - |a|);
      }
    }
  }

  /** The points of the steps lead from the first books to the last, write by write. */
  lemma {:induction false} RunIsChained(rank: Rank, plan: Plan, listing: map<Id, Object>, b: Books, rest: set<string>,
      steps: seq<Step>, n: nat)
    requires Ran(rank, plan, listing, b, rest, steps) && n <= |steps|
    ensures Chained(b.db, AllPoints(steps[..n]), BooksAt(b, steps, n).db)
  {
    hide Chained, StepOk, StepPlanned, IsEarliest, RestAt;
    if n == 0 {
      NothingChained(b.db);
    } else {
      RunIsChained(rank, plan, listing, b, rest, steps, n - 1);
      assert RanStep(rank, plan, listing, b, rest, steps, n - 1);
      StepIsChained(listing, steps[n - 1]);
      assert steps[..n][..n - 1] == steps[..n - 1];
      ChainsJoin(b.db, AllPoints(steps[..n - 1]), steps[n - 1].before.db, steps[n - 1].points, steps[n - 1].after.db);
    }
  }

  lemma NothingChained(db: Db)
    ensures Chained(db, AllPoints([]), db)
  {
  }

  lemma StepIsChained(listing: map<Id, Object>, s: Step)
    requires StepOk(listing, s)
    ensures Chained(s.before.db, s.points, s.after.db)
  {
    hide Chained, TreePoint, TreeWrite, DealtWith, Asked;
  }

  /** What holds of every point of every step holds of every point. */
  lemma {:induction false} AllPointsHave(steps: seq<Step>, p: Db -> bool)
    requires forall k, i | 0 <= k < |steps| && 0 <= i < |steps[k].points| :: p(steps[k].points[i].db)
    ensures forall i | 0 <= i < |AllPoints(steps)| :: p(AllPoints(steps)[i].db)
  {
    if steps != [] { AllPointsHave(steps[..|steps| - 1], p); }
  }

  lemma RanOneMore(rank: Rank, plan: Plan, listing: map<Id, Object>, b: Books, rest: set<string>, steps: seq<Step>,
      s: Step)
    requires Ran(rank, plan, listing, b, rest, steps) && (forall i | 0 <= i < |steps| :: steps[i].outcome != Crash)
    requires StepOk(listing, s) && StepPlanned(plan, listing, s)
    requires s.before == BooksAt(b, steps, |steps|) && IsEarliest(rank, RestAt(rest, steps, |steps|), s.rel)
    ensures Ran(rank, plan, listing, b, rest, steps + [s])
    ensures RestAt(rest, steps + [s], |steps| + 1) == RestAt(rest, steps, |steps|) - {s.rel}
    ensures AllPoints(steps + [s]) == AllPoints(steps) + s.points
  {
    hide StepOk, StepPlanned, RanStep, RestAt;
    var more := steps + [s];
    forall i | 0 <= i < |more| ensures RanStep(rank, plan, listing, b, rest, more, i) {
      if i < |steps| {
        assert RanStep(rank, plan, listing, b, rest, steps, i);
        RanStepStays(rank, plan, listing, b, rest, steps, s, i);
      } else {
        LastRanStep(rank, plan, listing, b, rest, steps, s);
      }
    }
    RestPrefix(rest, steps, [s], |steps|);
    OneLess(rest, more);
    assert more[..|steps|] == steps;
  }

  lemma RanStepStays(rank: Rank, plan: Plan, listing: map<Id, Object>, b: Books, rest: set<string>, steps: seq<Step>,
      s: Step, i: nat)
    requires i < |steps| && RanStep(rank, plan, listing, b, rest, steps, i) && steps[i].outcome != Crash
    ensures RanStep(rank, plan, listing, b, rest, steps + [s], i)
  {
    hide StepOk, StepPlanned, IsEarliest, RestAt;
    RestPrefix(rest, steps, [s], i);
    assert (steps + [s])[i] == steps[i] && (i > 0 ==> (steps + [s])[i - 1] == steps[i - 1]);
  }

  lemma LastRanStep(rank: Rank, plan: Plan, listing: map<Id, Object>, b: Books, rest: set<string>, steps: seq<Step>,
      s: Step)
    requires StepOk(listing, s) && StepPlanned(plan, listing, s)
    requires s.before == BooksAt(b, steps, |steps|) && IsEarliest(rank, RestAt(rest, steps, |steps|), s.rel)
    ensures RanStep(rank, plan, listing, b, rest, steps + [s], |steps|)
  {
    hide StepOk, StepPlanned, IsEarliest, RestAt;
    RestPrefix(rest, steps, [s], |steps|);
    assert (steps + [s])[|steps|] == s && (|steps| > 0 ==> (steps + [s])[|steps| - 1] == steps[|steps| - 1]);
  }

  lemma OneLess(rest: set<string>, steps: seq<Step>)
    requires steps != []
    ensures RestAt(rest, steps, |steps|) == RestAt(rest, steps, |steps| - 1) - {steps[|steps| - 1].rel}
  {
  }

  lemma {:induction false} RestPrefix(rest: set<string>, steps: seq<Step>, more: seq<Step>, i: nat)
    requires i <= |steps|
    ensures RestAt(rest, steps + more, i) == RestAt(rest, steps, i)
  {
    if i > 0 { RestPrefix(rest, steps, more, i - 1); }
  }

  /** The tree of the step got another root. */
  predicate GotMoved(listing: map<Id, Object>, s: Step) {
    IsTree(listing, s.rel) && s.outcome == Done && Asked(listing, s.before, s.rel).1 != s.rel
  }

  /** How many trees the steps moved. */
  function MovedTrees(listing: map<Id, Object>, steps: seq<Step>): nat {
    if steps == [] then 0
    else MovedTrees(listing, steps[..|steps| - 1]) + (if GotMoved(listing, steps[|steps| - 1]) then 1 else 0)
  }

  lemma MovedMore(listing: map<Id, Object>, steps: seq<Step>, s: Step)
    ensures MovedTrees(listing, steps + [s]) ==
            MovedTrees(listing, steps) + (if GotMoved(listing, s) then 1 else 0)
  {
    hide GotMoved;
    assert (steps + [s])[..|steps|] == steps;
  }

  /** The loop over the trees that still have to move. */
  method MoveAll(store: Store, registry: DeviceId.DeviceIdRegistry, rank: Rank, listing: map<Id, Object>,
                 placed: set<string>, waiting: set<string>)
    returns (r: Outcome, moved: nat, ghost steps: seq<Step>)
    requires waiting <= Roots(listing) && Obeys(store)
    modifies store, registry
    ensures Obeys(store) && store.plan == old(store.plan) && store.trace == old(store.trace) + AllPoints(steps)
    ensures Ran(rank, store.plan, listing, Books(old(store.View()), old(registry.View()), placed), waiting, steps)
    ensures var end := BooksAt(Books(old(store.View()), old(registry.View()), placed), steps, |steps|);
            end.db == store.View() && end.reg == registry.View()
    ensures if r == Crash then steps != [] && steps[|steps| - 1].outcome == Crash
            else r == Done && RestAt(waiting, steps, |steps|) == {} && forall i | 0 <= i < |steps| ::
                steps[i].outcome != Crash
    ensures moved == MovedTrees(listing, steps)
  {
    hide Ran, StepOk, StepPlanned, Obeys, AllPoints, RestAt, Asked, MovedTrees;
    var complete, pending := placed, waiting;
    ghost var b := Books(store.View(), registry.View(), placed);
    steps, moved := [], 0;
    NothingRan(rank, store.plan, listing, b, waiting);
    NothingMoved(listing);
    while pending != {}
      invariant pending <= waiting && Obeys(store) && store.plan == old(store.plan)
      invariant store.trace == old(store.trace) + AllPoints(steps)
      invariant Ran(rank, store.plan, listing, b, waiting, steps) && pending == RestAt(waiting, steps, |steps|)
      invariant BooksAt(b, steps, |steps|) == Books(store.View(), registry.View(), complete)
      invariant forall i | 0 <= i < |steps| :: steps[i].outcome != Crash
      invariant moved == MovedTrees(listing, steps)
      decreases pending
    {
      var rel := Earliest(rank, pending);
      var target;
      ghost var s;
      r, target, s := HandleTree(store, registry, listing, complete, rel);
      RanOneMore(rank, store.plan, listing, b, waiting, steps, s);
      MovedMore(listing, steps, s);
      steps := steps + [s];
      if r == Crash { return; }
      if r == Done {
        complete := complete + {target};
        if target != rel { moved := moved + 1; }
      }
      pending := pending - {rel};
    }
    r := Done;
  }

  lemma NothingMoved(listing: map<Id, Object>)
    ensures MovedTrees(listing, []) == 0
  {
  }

  lemma NothingRan(rank: Rank, plan: Plan, listing: map<Id, Object>, b: Books, rest: set<string>)
    ensures Ran(rank, plan, listing, b, rest, []) && AllPoints([]) == [] && RestAt(rest, [], 0) == rest
  {
  }

  /**
   * One start: its plan, the store it finds, the order of the listing, the books once all is recorded, the trees that
   * wait then, the steps over them, and the books at the end.
   */
  datatype Start = Start(
    plan: Plan, before: Db, listed: seq<string>, first: Books, waiting: set<string>, steps: seq<Step>, end: Books)

  predicate Died(s: Start) {
    s.steps != [] && s.steps[|s.steps| - 1].outcome == Crash
  }

  /**
   * What a start does: the seeding, then every waiting tree in order, until it is through or dies. Each write met what
   * was planned, and they lead from the store it found to the one it left with no change left out.
   */
  ghost predicate IsStart(rank: Rank, s: Start) {
    && IsSeeded(s)
    && Ran(rank, s.plan, s.before.objects, s.first, s.waiting, s.steps)
    && s.end == BooksAt(s.first, s.steps, |s.steps|)
    && (Died(s) || RestAt(s.waiting, s.steps, |s.steps|) == {})
    && (forall i | 0 <= i < |AllPoints(s.steps)| ::
        AllPoints(s.steps)[i].outcome == s.plan(i, AllPoints(s.steps)[i].write))
    && Chained(s.before, AllPoints(s.steps), s.end.db)
  }

  ghost predicate IsSeeded(s: Start) {
    && IsListing(s.before.objects, s.listed) && AreTrees(s.before.objects, s.listed)
    && var (reg, complete) := MarkedSeeds(s.before.objects, s.listed);
    && s.first == Books(s.before, JournalSeeds(s.before.objects, s.listed, reg), complete)
    && s.waiting == Roots(s.before.objects) - complete
  }

  lemma StartHas(rank: Rank, s: Start)
    requires IsStart(rank, s)
    ensures IsSeeded(s) && s.end == BooksAt(s.first, s.steps, |s.steps|)
    ensures Died(s) || RestAt(s.waiting, s.steps, |s.steps|) == {}
  {
    hide IsSeeded, Ran, AllPoints;
  }

  /** Step `k` of a start. */
  lemma StepAt(rank: Rank, s: Start, k: nat)
    requires IsStart(rank, s) && k < |s.steps|
    ensures StepOk(s.before.objects, s.steps[k]) && StepPlanned(s.plan, s.before.objects, s.steps[k])
    ensures s.steps[k].before == BooksAt(s.first, s.steps, k)
    ensures IsEarliest(rank, RestAt(s.waiting, s.steps, k), s.steps[k].rel)
    ensures s.steps[k].outcome == Crash ==> k == |s.steps| - 1
  {
    hide StepOk, StepPlanned, IsSeeded, AllPoints, IsEarliest;
    assert RanStep(rank, s.plan, s.before.objects, s.first, s.waiting, s.steps, k);
  }

  lemma NothingWaits(rank: Rank, s: Start)
    requires IsStart(rank, s) && s.waiting == {}
    ensures s.steps == []
  {
    hide StepOk, StepPlanned, IsSeeded, AllPoints;
    hide RanStep;
    assert forall i | 0 <= i < |s.steps| :: RanStep(rank, s.plan, s.before.objects, s.first, s.waiting, s.steps, i);
    NoStepFirst(rank, s);
  }

  lemma NoStepFirst(rank: Rank, s: Start)
    requires s.waiting == {}
    ensures s.steps != [] ==> !RanStep(rank, s.plan, s.before.objects, s.first, s.waiting, s.steps, 0)
  {
    hide StepOk, StepPlanned;
    assert RestAt(s.waiting, s.steps, 0) == {};
  }

  lemma ListedAreTrees(objects: map<Id, Object>, listed: seq<string>)
    requires IsListing(objects, listed)
    ensures AreTrees(objects, listed)
  {
    assert forall i | 0 <= i < |listed| :: listed[i] in listed;
  }

  /**
   * The migration of one start. Every write is one the start's steps record, it met what the plan held for it, and the
   * store and the registry end as the last step left them.
   */
  method MigrateDeviceIds(store: Store, registry: DeviceId.DeviceIdRegistry, rank: Rank)
    returns (r: Outcome, moved: nat, ghost start: Start)
    requires registry.View() == DeviceId.EMPTY && store.trace == [] && store.writes == 0
    modifies store, registry
    ensures store.plan == old(store.plan) && start.plan == store.plan && start.before == old(store.View())
    ensures IsStart(rank, start) && store.trace == AllPoints(start.steps)
    ensures start.end.db == store.View() && start.end.reg == registry.View()
    ensures r == (if Died(start) then Crash else Done) && moved == MovedTrees(start.before.objects, start.steps)
  {
    hide Ran, AllPoints, RestAt, MovedTrees, MarkedSeeds, JournalSeeds, IsListing, Chained;
    var listing := store.objects;
    ghost var before := store.View();
    var listed := ListTrees(listing);
    ListedAreTrees(listing, listed);
    var complete := SeedMarked(registry, listing, listed);
    SeedJournals(registry, listing, listed);
    ghost var steps;
    ghost var first, waiting := Books(before, registry.View(), complete), Roots(listing) - complete;
    r, moved, steps := MoveAll(store, registry, rank, listing, complete, Roots(listing) - complete);
    start := Start(store.plan, before, listed, first, waiting, steps, BooksAt(first, steps, |steps|));
    RunIsChained(rank, store.plan, listing, first, waiting, steps, |steps|);
    assert steps[..|steps|] == steps;
    assert store.trace == AllPoints(steps);
    assert Obeys(store);
  }

  // ----- starts, one after the other -----

  /** Starts one after the other, the first on `orig`, each on what the one before left. */
  ghost predicate IsHistory(orig: Db, rank: Rank, starts: seq<Start>) {
    forall i | 0 <= i < |starts| :: IsStart(rank, starts[i]) && starts[i].before == StoreAt(orig, starts, i)
  }

  /** The store start `i` finds. */
  function StoreAt(orig: Db, starts: seq<Start>, i: nat): Db
    requires i <= |starts|
  {
    if i == 0 then orig else starts[i - 1].end.db
  }

  /** A plan that lets everything through. */
  const SMOOTH: Plan := (_, _) => Done

  /** The starts of the adapter, each with a registry of its own. */
  method RunHistory(store: Store, rank: Rank, plans: seq<Plan>) returns (ghost starts: seq<Start>)
    modifies store
    ensures IsHistory(old(store.View()), rank, starts) && |starts| == |plans|
    ensures forall i | 0 <= i < |starts| :: starts[i].plan == plans[i]
    ensures store.View() == StoreAt(old(store.View()), starts, |starts|)
    ensures starts != [] ==> store.trace == AllPoints(starts[|starts| - 1].steps)
  {
    hide IsStart, AllPoints, IsHistory;
    ghost var orig := store.View();
    NoStarts(orig, rank);
    starts := [];
    for i := 0 to |plans|
      invariant IsHistory(orig, rank, starts) && |starts| == i
      invariant forall k | 0 <= k < i :: starts[k].plan == plans[k]
      invariant store.View() == StoreAt(orig, starts, i)
      invariant starts != [] ==> store.trace == AllPoints(starts[|starts| - 1].steps)
    {
      store.StartOver(plans[i]);
      var registry := new DeviceId.DeviceIdRegistry();
      var _, _, start := MigrateDeviceIds(store, registry, rank);
      OneMoreStart(orig, rank, starts, start);
      starts := starts + [start];
    }
  }

  lemma OneMoreStart(orig: Db, rank: Rank, starts: seq<Start>, s: Start)
    requires IsHistory(orig, rank, starts) && IsStart(rank, s) && s.before == StoreAt(orig, starts, |starts|)
    ensures IsHistory(orig, rank, starts + [s])
    ensures StoreAt(orig, starts + [s], |starts| + 1) == s.end.db
  {
    hide IsStart, StoreAt;
    var more := starts + [s];
    forall i | 0 <= i < |more| ensures IsStart(rank, more[i]) && more[i].before == StoreAt(orig, more, i) {
      StoreAtStays(orig, starts, s, i);
    }
    StoreAtStays(orig, starts, s, |starts|);
  }

  lemma StoreAtStays(orig: Db, starts: seq<Start>, s: Start, i: nat)
    requires i <= |starts|
    ensures StoreAt(orig, starts + [s], i) == StoreAt(orig, starts, i)
    ensures i < |starts| ==> (starts + [s])[i] == starts[i]
    ensures StoreAt(orig, starts + [s], |starts| + 1) == s.end.db && (starts + [s])[|starts|] == s
  {
  }

  lemma NoStarts(orig: Db, rank: Rank)
    ensures IsHistory(orig, rank, [])
  {
  }
}
