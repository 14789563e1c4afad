/** A start in which nothing is refused tidies up what any number of others left: one whole, marked tree a device. */
module Recovery {
  import opened Options
  import opened ObjectIds
  import opened DeviceMove
  import opened MoveInvariant
  import opened MigrationRun
  import opened RefusedWrites
  import opened RefusedStarts
  import R = DeviceRoots
  import DeviceId

  /** The device of `f` has exactly one tree, marked and whole, at its old root or its new one. */
  ghost predicate Settled(orig: Db, db: Db, f: string)
    requires IsTree(orig.objects, f)
  {
    exists home :: IsRootOf(Destinations(orig.objects), f, home) && OnlyTree(orig, db, f, home)
  }

  ghost predicate OnlyTree(orig: Db, db: Db, f: string, home: string)
    requires IsTree(orig.objects, f)
  {
    && IsTree(db.objects, home) && Marked(db.objects, home) && StandsBelow(orig, db, f, home)
    && forall r | IsTree(db.objects, r) :: KeyOf(db.objects, r) == KeyOf(orig.objects, f) <==> r == home
  }

  /** On the way: devices that move settle between their roots, the others get their mark. */
  ghost predicate RunSettles(orig: Db, rank: Rank, start: Db, b: Books, rest: set<string>) {
    var moves := Destinations(orig.objects);
    && RunSafe(orig, rank, start, b, rest)
    && (forall f | f in moves :: MoverSettles(orig, rank, start, b, rest, f))
    && forall f | IsTree(orig.objects, f) && f !in moves && f !in rest :: Marked(b.db.objects, f)
  }

  ghost predicate MoverSettles(orig: Db, rank: Rank, start: Db, b: Books, rest: set<string>, f: string) {
    && IsTree(orig.objects, f) && f in Destinations(orig.objects)
    && R.Settling(rank(f) < rank(Destinations(orig.objects)[f]), Before(orig, start, b, rest, f))
  }

  lemma StartSettles(orig: Db, rank: Rank, s: Start)
    requires Safe(orig, rank, s.before) && IsSeeded(s)
    ensures RunSettles(orig, rank, s.before, s.first, s.waiting)
  {
    hide Safe, Destinations, IsSeeded, Seen, R.Seeded, R.Good, R.Settling, RunSafe, Roots;
    StartIsSafe(orig, rank, s);
    SeededDb(s);
    forall f | f in Destinations(orig.objects) ensures MoverSettles(orig, rank, s.before, s.first, s.waiting, f) {
      SeededDevice(orig, rank, s, f);
      SeededMoverSettles(orig, rank, s, f);
    }
    forall f | IsTree(orig.objects, f) && f !in Destinations(orig.objects) && f !in s.waiting
      ensures Marked(s.before.objects, f)
    {
      StayerIsMarked(orig, rank, s, f);
    }
  }

  lemma SeededMoverSettles(orig: Db, rank: Rank, s: Start, f: string)
    requires Safe(orig, rank, s.before) && s.first.db == s.before && f in Destinations(orig.objects)
             && IsTree(orig.objects, f)
    requires R.Seeded(Before(orig, s.before, s.first, s.waiting, f))
    ensures MoverSettles(orig, rank, s.before, s.first, s.waiting, f)
  {
    hide R.Seeded, R.Settling, R.Good;
    var t := Destinations(orig.objects)[f];
    assert DeviceSafe(orig, rank, s.before, f, t);
    R.SeededSettles(rank(f) < rank(t), Before(orig, s.before, s.first, s.waiting, f));
  }

  /** A tree that stays where it is and does not wait was seeded, so it has the mark. */
  lemma StayerIsMarked(orig: Db, rank: Rank, s: Start, f: string)
    requires Safe(orig, rank, s.before) && IsSeeded(s) && IsTree(orig.objects, f)
    requires f !in Destinations(orig.objects) && f !in s.waiting
    ensures Marked(s.before.objects, f)
  {
    StandsAsTree(orig, rank, s.before, f, f);
    MarkedSeedsRecord(s.before.objects, s.listed);
    hide Safe, Destinations, MarkedSeeds, JournalSeeds;
    assert f in Roots(s.before.objects);
  }

  lemma OwnStepSettles(orig: Db, rank: Rank, start: Db, b: Books, after: Books, rest: set<string>, rel: string,
      f: string)
    requires MoverIsNext(orig, rank, start, b, rest, rel, f) && EndsAt(orig, start, b, rest, rel, f, after.db)
    requires MoverSettles(orig, rank, start, b, rest, f)
    requires var (reg, target) := Asked(start.objects, b, rel); after == Books(after.db, reg, b.complete + {target})
    ensures MoverSettles(orig, rank, start, after, rest - {rel}, f)
  {
    hide Destinations, RunSafe, R.Ready, R.Settling, R.IsNext, Asked, IsEarliest, At, IsOrder, R.Good, R.Ends, Seen;
    var t := Destinations(orig.objects)[f];
    MoverStands(orig, rank, start, b, rest, rel, f);
    var own, other := At(orig, after.db, f, rel), At(orig, after.db, f, Away(f, t, rel));
    R.DoneSettles(rank(f) < rank(t), Before(orig, start, b, rest, f), rel == t, own, other);
    DoneLooks(orig, rank, start, b, after, rest, rel, f);
  }

  lemma OtherStepSettles(orig: Db, rank: Rank, start: Db, b: Books, after: Books, rest: set<string>, rel: string,
      f: string, g: string)
    requires MoverIsNext(orig, rank, start, b, rest, rel, f) && g != f && MoverSettles(orig, rank, start, b, rest, g)
    requires OnlyOne(orig, b, after, {f, Destinations(orig.objects)[f]}, f)
    ensures MoverSettles(orig, rank, start, after, rest - {rel}, g)
  {
    hide Destinations, RunSafe, R.Settling, IsEarliest, IsOrder, Seen, OnlyOne;
    OthersStay(orig, rank, start, b, after, rest, rel, f, g);
  }

  lemma StayersStayMarked(db: Db, after: Db, roots: set<string>, f: string)
    requires SameBeyond(db, after, roots) && f !in roots && Marked(db.objects, f)
    ensures Marked(after.objects, f)
  {
  }

  lemma StayerIsNoRoot(orig: Db, rank: Rank, f: string, g: string)
    requires f in Destinations(orig.objects) && IsTree(orig.objects, g) && g !in Destinations(orig.objects)
    requires MovesOk(orig, Destinations(orig.objects))
    ensures g != f && g != Destinations(orig.objects)[f]
  {
    OriginalIsNoTarget(orig, Destinations(orig.objects), g);
    assert Destinations(orig.objects)[f] in Targets(Destinations(orig.objects));
  }

  /** The trees that stay where they are do not notice. */
  lemma StayersDoNotNotice(orig: Db, rank: Rank, start: Db, b: Books, after: Books, rest: set<string>, rel: string,
      f: string)
    requires RunSettles(orig, rank, start, b, rest) && f in Destinations(orig.objects) && IsTree(orig.objects, f)
    requires OnlyOne(orig, b, after, {f, Destinations(orig.objects)[f]}, f) && rel in {f, Destinations(orig.objects)[f]}
    ensures forall g | IsTree(orig.objects, g) && g !in Destinations(orig.objects) && g !in rest - {rel} ::
            Marked(after.db.objects, g)
  {
    hide Destinations, RunSafe, MoverSettles, Marked, SameBeyond, OthersTold, IsTree;
    assert MovesOk(orig, Destinations(orig.objects)) by {
      RunHas(orig, rank, start, b, rest);
      SafeIsWellFormed(orig, rank, start);
    }
    forall g | IsTree(orig.objects, g) && g !in Destinations(orig.objects) && g !in rest - {rel}
      ensures Marked(after.db.objects, g)
    {
      StayerIsNoRoot(orig, rank, f, g);
      StayersStayMarked(b.db, after.db, {f, Destinations(orig.objects)[f]}, g);
    }
  }

  lemma MoverSettled(orig: Db, rank: Rank, start: Db, b: Books, after: Books, rest: set<string>, rel: string, f: string)
    requires MoverIsNext(orig, rank, start, b, rest, rel, f) && RunSettles(orig, rank, start, b, rest)
    requires var (reg, target) := Asked(start.objects, b, rel);
             after == Books(DealtWith(start.objects, b, rel, target), reg, b.complete + {target})
    requires Safe(orig, rank, after.db)
    ensures RunSettles(orig, rank, start, after, rest - {rel})
  {
    hide Destinations, RunSafe, Asked, IsEarliest, IsOrder, Safe, OnlyOne, DealtWith, MoverSettles, EndsAt, Marked;
    hide SameBeyond, RegistrySafe;
    MoverDone(orig, rank, start, b, after, rest, rel, f);
    DoneEnds(orig, rank, start, b, after, rest, rel, f);
    StayersDoNotNotice(orig, rank, start, b, after, rest, rel, f);
    OwnStepSettles(orig, rank, start, b, after, rest, rel, f);
    forall g | g in Destinations(orig.objects) ensures MoverSettles(orig, rank, start, after, rest - {rel}, g) {
      if g != f { OtherStepSettles(orig, rank, start, b, after, rest, rel, f, g); }
    }
  }

  /** A tree that stays where it is got its mark. */
  lemma StayerSettled(orig: Db, rank: Rank, start: Db, b: Books, after: Books, rest: set<string>, f: string)
    requires StayerIsNext(orig, rank, start, b, rest, f) && RunSettles(orig, rank, start, b, rest)
    requires var (reg, target) := Asked(start.objects, b, f);
             after == Books(DealtWith(start.objects, b, f, target), reg, b.complete + {target})
    ensures RunSettles(orig, rank, start, after, rest - {f})
  {
    hide Destinations, RunSafe, Asked, Safe, RegistrySafe, OthersTold, Extension, SameBeyond, MoverSettles, Marked;
    hide DeviceId.Registry.KeepUnmoved;
    StayerAsked(orig, rank, start, b, rest, f);
    StayerSteps(orig, rank, start, b, after, rest, f);
    StayerPoint(orig, rank, start, b, rest, f, after.db);
    assert OnlyOne(orig, b, after, {f}, f);
    forall g | g in Destinations(orig.objects) ensures MoverSettles(orig, rank, start, after, rest - {f}, g) {
      StayerLeavesMover(orig, rank, start, b, after, rest, f, g);
    }
    forall g | IsTree(orig.objects, g) && g !in Destinations(orig.objects) && g !in rest - {f}
      ensures Marked(after.db.objects, g)
    {
      if g == f { ExtensionMarks(b.db, f); } else { StayersStayMarked(b.db, after.db, {f}, g); }
    }
  }

  lemma ExtensionMarks(db: Db, f: string)
    ensures Marked(Extension(db, f).objects, f)
  {
  }

  lemma StayerLeavesMover(orig: Db, rank: Rank, start: Db, b: Books, after: Books, rest: set<string>, f: string,
      g: string)
    requires StayerIsNext(orig, rank, start, b, rest, f) && MoverSettles(orig, rank, start, b, rest, g)
    requires OnlyOne(orig, b, after, {f}, f)
    ensures MoverSettles(orig, rank, start, after, rest - {f}, g)
  {
    hide Destinations, RunSafe, Safe, Seen, OnlyOne, R.Settling, TargetsFree;
    RunHas(orig, rank, start, b, rest);
    SafeIsWellFormed(orig, rank, start);
    StayerIsNoRoot(orig, rank, g, f);
    OthersUnseen(orig, start, b, after, rest, f, {f}, f, g, Destinations(orig.objects)[g]);
  }

  // ----- the whole start -----

  lemma StepSettles(orig: Db, rank: Rank, start: Db, rest: set<string>, plan: Plan, s: Step)
    requires RunSettles(orig, rank, start, s.before, rest) && IsOrder(rank) && IsEarliest(rank, rest, s.rel)
    requires StepOk(start.objects, s) && StepPlanned(plan, start.objects, s) && s.outcome == Done
    ensures RunSettles(orig, rank, start, s.after, rest - {s.rel})
  {
    hide RunSafe, RunSettles, Safe, StepOk, StepPlanned, Destinations, IsOrder, StepSafe, DealtWith, TreePoint, Asked;
    assert RunSafe(orig, rank, start, s.before, rest) by { SettlesIsSafe(orig, rank, start, s.before, rest); }
    RunHas(orig, rank, start, s.before, rest);
    StepHas(plan, start.objects, s);
    StepIsSafe(orig, rank, start, rest, plan, s);
    assert Safe(orig, rank, s.after.db) by { RunHas(orig, rank, start, s.after, rest - {s.rel}); }
    var f := OwnerIn(orig, rank, start, s.rel);
    if f in Destinations(orig.objects) {
      MoverSettled(orig, rank, start, s.before, s.after, rest, s.rel, f);
    } else {
      StayerSettled(orig, rank, start, s.before, s.after, rest, s.rel);
    }
  }

  lemma SettlesIsSafe(orig: Db, rank: Rank, start: Db, b: Books, rest: set<string>)
    requires RunSettles(orig, rank, start, b, rest)
    ensures RunSafe(orig, rank, start, b, rest)
  {
    hide RunSafe, MoverSettles, Destinations;
  }

  lemma {:induction false} AllSettle(orig: Db, rank: Rank, s: Start, i: nat)
    requires Safe(orig, rank, s.before) && IsOrder(rank) && IsStart(rank, s) && i <= |s.steps|
    requires forall k | 0 <= k < |s.steps| :: s.steps[k].outcome == Done
    ensures RunSettles(orig, rank, s.before, BooksAt(s.first, s.steps, i), RestAt(s.waiting, s.steps, i))
  {
    hide Safe, IsStart, IsSeeded, IsOrder, RunSettles, StepOk, StepPlanned, IsEarliest;
    if i == 0 {
      assert IsSeeded(s) by { StartHas(rank, s); }
      StartSettles(orig, rank, s);
    } else {
      AllSettle(orig, rank, s, i - 1);
      StepAt(rank, s, i - 1);
      StepSettles(orig, rank, s.before, RestAt(s.waiting, s.steps, i - 1), s.plan, s.steps[i - 1]);
    }
  }

  /** Once nothing waits, the one root of a device that moves. */
  lemma MoverHome(orig: Db, rank: Rank, start: Db, b: Books, f: string)
    requires RunSettles(orig, rank, start, b, {}) && f in Destinations(orig.objects)
    ensures IsTree(orig.objects, f)
    ensures var t := Destinations(orig.objects)[f];
            exists home, away :: {home, away} == {f, t} && Root(home) in b.db.objects && Marked(b.db.objects, home)
              && Whole(orig, b.db, f, home) && Root(away) !in b.db.objects
  {
    hide Destinations, RunSafe, Whole;
    var t := Destinations(orig.objects)[f];
    assert MoverSettles(orig, rank, start, b, {}, f);
    assert R.OneRoot(Before(orig, start, b, {}, f));
    if Root(f) in b.db.objects { assert {f, t} == {f, t}; } else { assert {t, f} == {f, t}; }
  }

  lemma MoverIsSettled(orig: Db, rank: Rank, db: Db, f: string, home: string, away: string)
    requires Safe(orig, rank, db) && f in Destinations(orig.objects)
             && {home, away} == {f, Destinations(orig.objects)[f]}
    requires Root(home) in db.objects && Marked(db.objects, home) && Root(away) !in db.objects
    requires IsTree(orig.objects, f) && Whole(orig, db, f, home)
    ensures OnlyTree(orig, db, f, home) && IsRootOf(Destinations(orig.objects), f, home)
  {
    hide Safe, Destinations, Whole, Versions, StandsBelow, Marked;
    var t := Destinations(orig.objects)[f];
    assert home in {home, away} && away in {home, away};
    RootFacts(orig, rank, db, f, home);
    SafeDevice(orig, rank, db, f);
    WholeStands(orig, db, f, t, home);
    forall r | IsTree(db.objects, r) && KeyOf(db.objects, r) == KeyOf(orig.objects, f) ensures r == home {
      RootByKey(orig, rank, db, f, r);
      assert r in {home, away};
    }
  }

  lemma StayerIsSettled(orig: Db, rank: Rank, db: Db, f: string)
    requires Safe(orig, rank, db) && IsTree(orig.objects, f) && f !in Destinations(orig.objects)
             && Marked(db.objects, f)
    ensures OnlyTree(orig, db, f, f)
  {
    var moves := Destinations(orig.objects);
    RestStands(orig, db, moves, f);
    StandsAsTree(orig, rank, db, f, f);
    hide Safe, Destinations, StandsBelow, Marked;
    forall r | IsTree(db.objects, r) ensures KeyOf(db.objects, r) == KeyOf(orig.objects, f) <==> r == f {
      if KeyOf(db.objects, r) == KeyOf(orig.objects, f) { RootByKey(orig, rank, db, f, r); }
      var g := OwnerIn(orig, rank, db, r);
      if r == f { RootsMeet(orig, rank, db, f, g); }
    }
  }

  lemma RootsMeet(orig: Db, rank: Rank, db: Db, f: string, g: string)
    requires Safe(orig, rank, db) && IsTree(orig.objects, f) && IsTree(orig.objects, g)
             && IsRootOf(Destinations(orig.objects), g, f)
    ensures g == f
  {
    hide Destinations, WellFormed, RestInv, AliasesHold;
    RootsDiffer(orig, Destinations(orig.objects), f, g, f);
  }

  lemma EndIsSettled(orig: Db, rank: Rank, s: Start)
    requires Safe(orig, rank, s.before) && IsOrder(rank) && IsStart(rank, s)
    requires forall k | 0 <= k < |s.steps| :: s.steps[k].outcome == Done
    ensures forall f | IsTree(orig.objects, f) :: Settled(orig, s.end.db, f)
  {
    hide Safe, IsSeeded, IsOrder, RunSafe, Destinations, OnlyTree, Ran, AllPoints, Whole, IsTree, Marked, MoverSettles;
    AllSettle(orig, rank, s, |s.steps|);
    var b := s.end;
    RunHas(orig, rank, s.before, b, {});
    forall f | IsTree(orig.objects, f) ensures Settled(orig, b.db, f) {
      if f in Destinations(orig.objects) {
        MoverHome(orig, rank, s.before, b, f);
        var t := Destinations(orig.objects)[f];
        var home, away :| {home, away} == {f, t} && Root(home) in b.db.objects && Marked(b.db.objects, home)
                          && Whole(orig, b.db, f, home) && Root(away) !in b.db.objects;
        MoverIsSettled(orig, rank, b.db, f, home, away);
      } else {
        StayerIsSettled(orig, rank, b.db, f);
      }
    }
  }

  lemma SmoothIsDone(rank: Rank, s: Start, k: nat)
    requires IsStart(rank, s) && s.plan == SMOOTH && k < |s.steps|
    ensures s.steps[k].outcome == Done
  {
    StepAt(rank, s, k);
    hide IsStart, StepOk, TreeWrite, DealtWith, TreePoint, Asked, CopiedTree, SticksAtDelete, RefusesRoot;
  }

  /**
   * Any number of starts with any plans, refused writes and deaths in any mix, then one that is left alone. As long as
   * no two trees want the same root, every device stands whole below one of its two roots at every write of all of
   * them, with its values, its recordings and the aliases to it, and nothing else of the store changes; and in the end
   * every device has exactly one tree, whole and marked.
   */
  method SurviveRefusals(store: Store, rank: Rank, plans: seq<Plan>, ghost orig: Db) returns (ghost starts: seq<Start>)
    requires WellFormed(orig) && Apart(orig.objects) && IsOrder(rank) && store.View() == orig
    modifies store
    ensures IsHistory(orig, rank, starts) && |starts| == |plans| + 1
    ensures forall i | 0 <= i < |starts| :: starts[i].plan == if i < |plans| then plans[i] else SMOOTH
    ensures forall i | 0 <= i < |starts| :: StartKeeps(orig, starts[i])
    ensures store.View() == starts[|plans|].end.db && store.trace == AllPoints(starts[|plans|].steps)
    ensures forall f | IsTree(orig.objects, f) :: Settled(orig, store.View(), f)
  {
    hide WellFormed, Apart, IsOrder, IsStart, StartKeeps, AllPoints, Safe, Settled, IsTree;
    starts := RunHistory(store, rank, plans + [SMOOTH]);
    HistoryKeepsAll(orig, rank, starts, |plans|);
    HistoryKeepsAll(orig, rank, starts, |starts|);
    var last := starts[|plans|];
    assert IsStart(rank, last) && last.before == StoreAt(orig, starts, |plans|);
    forall k | 0 <= k < |last.steps| ensures last.steps[k].outcome == Done { SmoothIsDone(rank, last, k); }
    EndIsSettled(orig, rank, last);
  }
}
