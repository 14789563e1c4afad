/**
 * Stores that refused writes and crashes leave behind. A refused move leaves its target free, so the tree may be told
 * another target later, and the copy at the first target may be told the old root: what stands of a device can go back
 * and forth between the two. This module says what holds of the store whatever was refused, and that every point of
 * every move keeps it, as long as no two devices want the same root.
 */
module RefusedWrites {
  import opened Options
  import opened ObjectIds
  import opened DeviceMove
  import opened MoveInvariant
  import opened MigrationRun
  import R = DeviceRoots
  import DeviceId

  // ----- where every device belongs -----

  /** The ids below a folder that marked trees hold. */
  function HeldIds(objects: map<Id, Object>, folder: string): set<string> {
    set r | r in Roots(objects) && Marked(objects, r) && folder + "." <= r :: r[|folder| + 1..]
  }

  /** The root the rule gives the tree `f` next to the marked trees alone. */
  function Destination(objects: map<Id, Object>, f: string): string
    requires IsTree(objects, f)
  {
    var (sku, deviceId) := DeviceOf(objects, f);
    DeviceId.Folder(sku) + "." + DeviceId.DeviceIdFor(sku, deviceId, HeldIds(objects, DeviceId.Folder(sku)))
  }

  predicate Unmoved(objects: map<Id, Object>, f: string) {
    IsTree(objects, f) && !Marked(objects, f)
  }

  /** No two trees that have to move want the same root. */
  ghost predicate Apart(objects: map<Id, Object>) {
    forall f, g | Unmoved(objects, f) && Unmoved(objects, g) && f != g ::
        Destination(objects, f) != Destination(objects, g)
  }

  /** The trees that change their root, with the root they belong at. */
  function Destinations(objects: map<Id, Object>): map<string, string> {
    map f | f in Roots(objects) && !Marked(objects, f) && Destination(objects, f) != f :: Destination(objects, f)
  }

  lemma DestinationIsFree(orig: Db, f: string)
    requires WellFormed(orig) && Unmoved(orig.objects, f)
    ensures var t := Destination(orig.objects, f);
            RootForm(t) && (t != f ==> NothingIn(orig, t))
  {
    var (sku, deviceId) := DeviceOf(orig.objects, f);
    var folder, t := DeviceId.Folder(sku), Destination(orig.objects, f);
    var id := DeviceId.DeviceIdFor(sku, deviceId, HeldIds(orig.objects, folder));
    assert DeviceId.IsCandidate(sku, deviceId, t) by {
      assert DeviceId.IsCandidateId(sku, deviceId, id) && t == folder + "." + id;
    }
    DeviceId.CandidateForm(sku, deviceId, t);
    assert t[|folder| + 1..] == id && folder + "." <= t;
    assert forall r | IsTree(orig.objects, r) && Marked(orig.objects, r) && folder + "." <= r ::
      r in Roots(orig.objects) && r[|folder| + 1..] in HeldIds(orig.objects, folder);
  }

  lemma DestinationsOk(orig: Db)
    requires WellFormed(orig) && Apart(orig.objects)
    ensures MovesOk(orig, Destinations(orig.objects))
  {
    hide WellFormed, Destination;
    var moves := Destinations(orig.objects);
    forall f | f in moves ensures RootForm(moves[f]) && NothingIn(orig, moves[f]) {
      DestinationIsFree(orig, f);
    }
  }

  // ----- what stands of a device -----

  /** The settings of a copied object: a recording goes on under the id it began with. */
  function Named(was: Object, id: Id): Option<Custom> {
    if was.kind == State then KeepHistoryUnder(was.custom, Print(id)) else was.custom
  }

  /** An object as it was, or as a copy of it: only below the old root can the settings still be the first ones. */
  predicate IsVersion(was: Object, now: Object, id: Id, first: bool) {
    && now.kind == was.kind && now.body == was.body && now.sku == was.sku && now.deviceId == was.deviceId
    && (now.custom == Named(was, id) || (first && now.custom == was.custom))
  }

  /** Below both roots of the device of `f` stands only what it had, and a journal leads from one root to the other. */
  ghost predicate Versions(orig: Db, db: Db, f: string, t: string) {
    && (forall n | n in db.objects && (InTree(n, f) || InTree(n, t)) ::
          Retree(n, f) in orig.objects
              && IsVersion(orig.objects[Retree(n, f)], db.objects[n], Retree(n, f), n.root == f))
    && (forall n | n in db.states && (InTree(n, f) || InTree(n, t)) ::
          Retree(n, f) in orig.states && db.states[n] == orig.states[Retree(n, f)])
    && (Root(f) in db.objects ==> db.objects[Root(f)].movingTo in {None, Some(t)})
    && (Root(t) in db.objects ==> db.objects[Root(t)].movingTo in {None, Some(f)})
  }

  /** Every object and every value of the tree `f` stands below `r`. */
  ghost predicate Whole(orig: Db, db: Db, f: string, r: string) {
    && (forall id | id in orig.objects && InTree(id, f) :: Retree(id, r) in db.objects)
    && (forall id | id in orig.states && InTree(id, f) && orig.states[id].val.Some? :: Retree(id, r) in db.states)
  }

  ghost function At(orig: Db, db: Db, f: string, r: string): R.Root {
    if Root(r) !in db.objects then R.Gone
    else R.Here(Marked(db.objects, r), JournalOf(db.objects[Root(r)]).Some?, Whole(orig, db, f, r))
  }

  /** The roots of a device of the original store. */
  ghost predicate Roots2(orig: Db, f: string, t: string) {
    && IsTree(orig.objects, f) && Root(f) !in orig.states && f != t && RootForm(t) && NothingIn(orig, t)
  }

  /** A move of the device of `f` from one of its roots to the other. */
  ghost predicate Between(f: string, t: string, src: string, dst: string) {
    (src == f && dst == t) || (src == t && dst == f)
  }

  // ----- every point of a move -----

  /** A move that is safe to start: its source stands, and what it only fills carries the mark. */
  ghost predicate Starts(orig: Db, db: Db, f: string, t: string, src: string, dst: string, fill: bool) {
    && Roots2(orig, f, t) && Between(f, t, src, dst) && Versions(orig, db, f, t)
    && Root(src) in db.objects && (fill ==> Marked(db.objects, dst))
  }

  lemma JournalStep(orig: Db, db: Db, f: string, t: string, src: string, dst: string, movingTo: Option<string>,
      fill: bool)
    requires Starts(orig, db, f, t, src, dst, fill) && (movingTo.Some? ==> movingTo == Some(dst))
    ensures var base := Journaled(db, src, movingTo, dst, fill);
            && Starts(orig, base, f, t, src, dst, fill) && SameBeyond(db, base, {f, t})
            && At(orig, base, f, src) == R.Moving(At(orig, db, f, src), movingTo.Some?, fill)
            && At(orig, base, f, dst) == At(orig, db, f, dst)
            && base.aliases == db.aliases && forall id :: id in base.objects <==> id in db.objects
  {
  }

  /** What a copy writes is a version of what it copies. */
  lemma CopyIsVersion(orig: Db, f: string, t: string, job: Job, id: Id)
    requires Starts(orig, job.base, f, t, job.from, job.to, job.fill) && id in job.Sources()
    ensures IsVersion(orig.objects[Retree(id, f)], job.Copy(id), Retree(id, f), false)
    ensures Retree(Retree(id, job.to), f) == Retree(id, f)
  {
    var was := orig.objects[Retree(id, f)];
    assert IsVersion(was, job.base.objects[id], Retree(id, f), id.root == f);
    HistoryIsNamedOnce(was.custom, Print(Retree(id, f)), Print(id));
    if id.root == f { assert Retree(id, f) == id; }
  }

  /** So is what stands at its target afterwards. */
  lemma ArrivedIsVersion(orig: Db, f: string, t: string, job: Job, id: Id)
    requires Starts(orig, job.base, f, t, job.from, job.to, job.fill) && id in job.Sources()
    ensures IsVersion(orig.objects[Retree(id, f)], job.Arrived(id), Retree(id, f), job.to == f)
    ensures id == Root(job.from) ==> job.Arrived(id).movingTo in {None, Some(if job.to == t then f else t)}
  {
    CopyIsVersion(orig, f, t, job, id);
    if job.Kept(id) {
      var n := Retree(id, job.to);
      assert InTree(n, f) || InTree(n, t);
      assert IsVersion(orig.objects[Retree(n, f)], job.base.objects[n], Retree(n, f), n.root == f);
    }
  }

  /** A copy on its way: the objects. */
  lemma PartObjects(orig: Db, f: string, t: string, job: Job, done: set<Id>, after: Db)
    requires Starts(orig, job.base, f, t, job.from, job.to, job.fill) && done <= job.Sources()
    requires after.objects == job.Objects(done)
    ensures forall n | n in after.objects && (InTree(n, f) || InTree(n, t)) ::
              Retree(n, f) in orig.objects
                  && IsVersion(orig.objects[Retree(n, f)], after.objects[n], Retree(n, f), n.root == f)
    ensures Root(f) in after.objects ==> after.objects[Root(f)].movingTo in {None, Some(t)}
    ensures Root(t) in after.objects ==> after.objects[Root(t)].movingTo in {None, Some(f)}
  {
    hide IsVersion, Job.Arrived;
    forall n | n in after.objects && (InTree(n, f) || InTree(n, t))
      ensures Retree(n, f) in orig.objects
      ensures IsVersion(orig.objects[Retree(n, f)], after.objects[n], Retree(n, f), n.root == f)
      ensures n == Root(f) ==> after.objects[n].movingTo in {None, Some(t)}
      ensures n == Root(t) ==> after.objects[n].movingTo in {None, Some(f)}
    {
      if n.root == job.to && Retree(n, job.from) in done {
        ArrivedIsVersion(orig, f, t, job, Retree(n, job.from));
      }
    }
  }

  /** The values. */
  lemma PartStates(orig: Db, f: string, t: string, job: Job, sdone: set<Id>, after: Db)
    requires Starts(orig, job.base, f, t, job.from, job.to, job.fill) && sdone <= job.Values()
    requires after.states == job.States(sdone)
    ensures forall n | n in after.states && (InTree(n, f) || InTree(n, t)) ::
              Retree(n, f) in orig.states && after.states[n] == orig.states[Retree(n, f)]
  {
    hide IsVersion;
    forall n | n in after.states && (InTree(n, f) || InTree(n, t))
      ensures Retree(n, f) in orig.states && after.states[n] == orig.states[Retree(n, f)]
    {
      if n.root == job.to && Retree(n, job.from) in sdone {
        var id := Retree(n, job.from);
        assert id in job.base.states && (InTree(id, f) || InTree(id, t));
      }
    }
  }

  lemma AgreeAt(orig: Db, db: Db, after: Db, f: string, r: string)
    requires Agree(db, after, r)
    ensures At(orig, after, f, r) == At(orig, db, f, r)
  {
    assert InTree(Root(r), r);
    assert forall id | InTree(id, f) :: InTree(Retree(id, r), r);
  }

  /** A copy on its way: the source is untouched, and at the target stand versions. */
  lemma PartVersions(orig: Db, f: string, t: string, job: Job, done: set<Id>, sdone: set<Id>, after: Db)
    requires Starts(orig, job.base, f, t, job.from, job.to, job.fill) && done <= job.Sources() && sdone <= job.Values()
    requires after.objects == job.Objects(done) && after.states == job.States(sdone)
    ensures Versions(orig, after, f, t) && SameBeyond(job.base, after, {f, t})
    ensures At(orig, after, f, job.from) == At(orig, job.base, f, job.from)
    ensures forall n | n in job.base.objects :: n in after.objects
    ensures forall n | n in job.base.states :: n in after.states
  {
    hide IsVersion, At, Starts, Job.Objects, Job.States, InTree, Retree;
    assert job.Legal() && {job.from, job.to} == {f, t} by { StartsLegal(orig, f, t, job); }
    PartObjects(orig, f, t, job, done, after);
    PartStates(orig, f, t, job, sdone, after);
    SourceStays(job, done, sdone, after);
    AgreeAt(orig, job.base, after, f, job.from);
  }

  lemma StartsLegal(orig: Db, f: string, t: string, job: Job)
    requires Starts(orig, job.base, f, t, job.from, job.to, job.fill)
    ensures job.Legal() && {job.from, job.to} == {f, t}
  {
    hide Versions, Roots2;
    assert f != t by { RootsAreTwo(orig, f, t); }
  }

  lemma RootsAreTwo(orig: Db, f: string, t: string)
    requires Roots2(orig, f, t)
    ensures f != t
  {
  }

  /** What was whole stays whole. */
  lemma StaysWhole(orig: Db, db: Db, after: Db, f: string, r: string)
    requires Whole(orig, db, f, r)
    requires (forall n | n in db.objects :: n in after.objects) && (forall n | n in db.states :: n in after.states)
    ensures Whole(orig, after, f, r)
  {
  }

  /** The copied root. */
  lemma CopiedRoot(orig: Db, f: string, t: string, job: Job)
    requires Starts(orig, job.base, f, t, job.from, job.to, job.fill)
    ensures Root(job.from) in job.Sources() && Retree(Root(job.from), job.to) == Root(job.to)
    ensures job.Kept(Root(job.from)) <==> job.fill
    ensures job.fill ==> job.Arrived(Root(job.from)) == job.base.objects[Root(job.to)]
    ensures !job.fill ==>
              && job.Arrived(Root(job.from)).idScheme == job.base.objects[Root(job.from)].idScheme
              && job.Arrived(Root(job.from)).movingTo == None
  {
    assert job.base.objects[Root(job.from)].kind == Device;
  }

  /** A copy on its way: what becomes of the target root. */
  lemma PartTarget(orig: Db, f: string, t: string, job: Job, done: set<Id>, sdone: set<Id>, after: Db)
    requires Starts(orig, job.base, f, t, job.from, job.to, job.fill) && !job.Skips()
    requires done <= job.Sources() && sdone <= job.Values() && job.CopyOrder(done)
    requires after.objects == job.Objects(done) && after.states == job.States(sdone)
    ensures R.Copying(At(orig, job.base, f, job.from), At(orig, job.base, f, job.to), job.fill,
            At(orig, after, f, job.to))
  {
    hide Versions, Whole, Job.Arrived;
    CopiedRoot(orig, f, t, job);
    SourceStays(job, done, sdone, after);
    if Whole(orig, job.base, f, job.to) { StaysWhole(orig, job.base, after, f, job.to); }
  }

  /** Everything copied: the target has what it had and what the source had. */
  lemma FullTarget(orig: Db, f: string, t: string, job: Job, after: Db)
    requires Starts(orig, job.base, f, t, job.from, job.to, job.fill)
    requires after.objects == job.Objects(job.Sources()) && after.states == job.States(job.Values())
    requires Whole(orig, job.base, f, job.from)
    ensures Whole(orig, after, f, job.to)
  {
    hide IsVersion, Job.Arrived;
    forall id | id in orig.objects && InTree(id, f) ensures Retree(id, job.to) in after.objects {
      assert Retree(id, job.from) in job.Sources();
      assert Retree(Retree(id, job.from), job.to) == Retree(id, job.to);
    }
    forall id | id in orig.states && InTree(id, f) && orig.states[id].val.Some?
      ensures Retree(id, job.to) in after.states
    {
      var n := Retree(id, job.from);
      assert n in job.base.states && Retree(n, f) == id && job.base.states[n] == orig.states[id];
      assert n.path != [];
      assert Retree(n, job.to) == Retree(id, job.to);
      assert n in job.Values() || Retree(id, job.to) in job.base.states;
    }
  }

  // ----- aliases -----

  /** The same place below the two roots of one device. */
  predicate SameDevice(moves: map<string, string>, id: Id, n: Id) {
    && id.Below? && n.Below? && n.path == id.path
    && ((id.root in moves && n.root == moves[id.root]) || (n.root in moves && moves[n.root] == id.root))
  }

  /** An end is where it was or at the same place below the other root, and never names less than it did. */
  ghost predicate EndHolds(orig: Db, db: Db, moves: map<string, string>, before: Option<Id>, after: Option<Id>) {
    match before
    case None => after == None
    case Some(id) =>
      && after.Some? && (after == before || SameDevice(moves, id, after.value))
      && (id in orig.objects ==> after.value in db.objects)
  }

  ghost predicate AliasHolds(orig: Db, db: Db, moves: map<string, string>, before: Alias, after: Alias) {
    && after.body == before.body
    && (before.target.NoTarget? <==> after.target.NoTarget?)
    && (before.target.Plain? <==> after.target.Plain?)
    && forall place | 0 <= place < 3 :: EndHolds(orig, db, moves, End(before.target, place), End(after.target, place))
  }

  ghost predicate AliasesHold(orig: Db, db: Db, moves: map<string, string>) {
    && db.aliases.Keys == orig.aliases.Keys
    && forall a | a in db.aliases :: AliasHolds(orig, db, moves, orig.aliases[a], db.aliases[a])
  }

  /** No root belongs to two devices. */
  ghost predicate Separate(moves: map<string, string>) {
    && (forall f, g | f in moves && g in moves && f != g :: moves[f] != moves[g])
    && (forall f, g | f in moves && g in moves :: moves[f] != g)
  }

  /** The two roots of one device. */
  ghost predicate OfOne(moves: map<string, string>, src: string, dst: string) {
    exists f :: f in moves && Between(f, moves[f], src, dst)
  }

  lemma MovesSeparate(orig: Db, moves: map<string, string>)
    requires MovesOk(orig, moves)
    ensures Separate(moves)
  {
    forall f, g | f in moves && g in moves ensures moves[f] != g { OtherRoots(orig, moves, f); }
  }

  /** Ends that do not change stay live while what they name stays. */
  lemma AliasesStay(orig: Db, db: Db, after: Db, moves: map<string, string>, gone: string)
    requires AliasesHold(orig, db, moves) && after.aliases == db.aliases
    requires forall n | n in db.objects && !InTree(n, gone) :: n in after.objects
    requires (forall n | n in db.objects :: n in after.objects) || NoEnds(db.aliases, gone)
    ensures AliasesHold(orig, after, moves)
  {
    forall a | a in db.aliases ensures AliasHolds(orig, after, moves, orig.aliases[a], db.aliases[a]) {
      assert AliasHolds(orig, db, moves, orig.aliases[a], db.aliases[a]);
      forall place | 0 <= place < 3
        ensures EndHolds(orig, after, moves, End(orig.aliases[a].target, place), End(db.aliases[a].target, place))
      {
        assert EndHolds(orig, db, moves, End(orig.aliases[a].target, place), End(db.aliases[a].target, place));
      }
    }
  }

  lemma EndMoves(orig: Db, db: Db, after: Db, moves: map<string, string>, src: string, dst: string,
                 before: Option<Id>, was: Option<Id>, now: Option<Id>)
    requires EndHolds(orig, db, moves, before, was)
    requires now == if was.Some? && InTree(was.value, src) then Some(Retree(was.value, dst)) else was
    requires OfOne(moves, src, dst) && Separate(moves)
    requires forall n | n in db.objects :: n in after.objects && (InTree(n, src) ==> Retree(n, dst) in after.objects)
    ensures EndHolds(orig, after, moves, before, now)
  {
    if before.Some? && was.Some? && InTree(was.value, src) {
      var f :| f in moves && Between(f, moves[f], src, dst);
    }
  }

  /** Aliases on their way to the other root of their device; at the end none names the one they leave. */
  lemma RetargetHolds(orig: Db, db: Db, after: Db, moves: map<string, string>, job: Job, done: set<string>)
    requires AliasesHold(orig, db, moves) && db.aliases == job.base.aliases && after.aliases == job.Aliases(done)
             && job.Legal()
    requires OfOne(moves, job.from, job.to) && Separate(moves)
    requires forall n | n in db.objects ::
             n in after.objects && (InTree(n, job.from) ==> Retree(n, job.to) in after.objects)
    ensures AliasesHold(orig, after, moves)
    ensures done == db.aliases.Keys ==> NoEnds(after.aliases, job.from)
  {
    hide EndHolds, OfOne, Separate;
    forall a | a in db.aliases
      ensures AliasHolds(orig, after, moves, orig.aliases[a], after.aliases[a])
      ensures a in done ==> forall place | 0 <= place < 3 ::
                var now := End(after.aliases[a].target, place); now.Some? ==> !InTree(now.value, job.from)
    {
      assert AliasHolds(orig, db, moves, orig.aliases[a], db.aliases[a]);
      AliasMoves(orig, db, after, moves, job, orig.aliases[a], db.aliases[a]);
      RetargetedEnds(db.aliases[a], job.from, job.to);
      if a !in done { AliasStaysPut(orig, db, after, moves, orig.aliases[a], db.aliases[a]); }
    }
  }

  lemma AliasStaysPut(orig: Db, db: Db, after: Db, moves: map<string, string>, before: Alias, was: Alias)
    requires AliasHolds(orig, db, moves, before, was)
    requires forall n | n in db.objects :: n in after.objects
    ensures AliasHolds(orig, after, moves, before, was)
  {
    forall place | 0 <= place < 3
      ensures EndHolds(orig, after, moves, End(before.target, place), End(was.target, place))
    {
      assert EndHolds(orig, db, moves, End(before.target, place), End(was.target, place));
    }
  }

  lemma AliasMoves(orig: Db, db: Db, after: Db, moves: map<string, string>, job: Job, before: Alias, was: Alias)
    requires AliasHolds(orig, db, moves, before, was) && job.Legal()
    requires OfOne(moves, job.from, job.to) && Separate(moves)
    requires forall n | n in db.objects ::
             n in after.objects && (InTree(n, job.from) ==> Retree(n, job.to) in after.objects)
    ensures AliasHolds(orig, after, moves, before, Retargeted(was, job.from, job.to))
  {
    hide EndHolds, OfOne, Separate;
    RetargetedEnds(was, job.from, job.to);
    forall place | 0 <= place < 3
      ensures EndHolds(orig, after, moves, End(before.target, place),
              End(Retargeted(was, job.from, job.to).target, place))
    {
      EndMoves(orig, db, after, moves, job.from, job.to, End(before.target, place), End(was.target, place),
               End(Retargeted(was, job.from, job.to).target, place));
    }
  }

  // ----- the whole move -----

  /** A move that is safe, with everything it must not lose. */
  ghost predicate MaySafely(orig: Db, db: Db, moves: map<string, string>, f: string, src: string, dst: string,
      fill: bool) {
    && MovesOk(orig, moves) && f in moves && Starts(orig, db, f, moves[f], src, dst, fill)
    && AliasesHold(orig, db, moves)
    && (!fill && Marked(db.objects, dst) ==> Whole(orig, db, f, dst))
  }

  /** What it must not lose. */
  ghost predicate Held(orig: Db, db: Db, after: Db, moves: map<string, string>, f: string)
    requires f in moves
  {
    Versions(orig, after, f, moves[f]) && SameBeyond(db, after, {f, moves[f]}) && AliasesHold(orig, after, moves)
  }

  lemma BeyondChains(db: Db, mid: Db, after: Db, roots: set<string>)
    requires SameBeyond(db, mid, roots) && SameBeyond(mid, after, roots)
    ensures SameBeyond(db, after, roots)
  {
  }

  /** Up to the aliases. */
  lemma PartHolds(orig: Db, moves: map<string, string>, f: string, job: Job, done: set<Id>, sdone: set<Id>, after: Db)
    requires MaySafely(orig, job.base, moves, f, job.from, job.to, job.fill) && !job.Skips()
    requires done <= job.Sources() && sdone <= job.Values() && job.CopyOrder(done)
    requires after == Db(job.Objects(done), job.States(sdone), job.base.aliases)
    ensures Held(orig, job.base, after, moves, f)
    ensures At(orig, after, f, job.from) == At(orig, job.base, f, job.from)
    ensures R.Copying(At(orig, job.base, f, job.from), At(orig, job.base, f, job.to), job.fill,
            At(orig, after, f, job.to))
  {
    PartVersions(orig, f, moves[f], job, done, sdone, after);
    PartTarget(orig, f, moves[f], job, done, sdone, after);
    hide Versions, At, R.Copying, Job.Objects, Job.States, MovesOk;
    AliasesStay(orig, job.base, after, moves, job.from);
  }

  /** With the aliases, some or all of them. */
  lemma AliasesFollowCopy(orig: Db, moves: map<string, string>, f: string, job: Job, done: set<string>, after: Db)
    requires MaySafely(orig, job.base, moves, f, job.from, job.to, job.fill) && !job.Skips()
    requires after == Db(job.Objects(job.Sources()), job.States(job.Values()), job.Aliases(done))
    ensures Held(orig, job.base, after, moves, f)
    ensures At(orig, after, f, job.from) == At(orig, job.base, f, job.from)
    ensures R.Copying(At(orig, job.base, f, job.from), At(orig, job.base, f, job.to), job.fill,
            At(orig, after, f, job.to))
    ensures Whole(orig, job.base, f, job.from) || Whole(orig, job.base, f, job.to) ==> Whole(orig, after, f, job.to)
    ensures done == job.base.aliases.Keys ==> NoEnds(after.aliases, job.from)
  {
    var t := moves[f];
    PartVersions(orig, f, t, job, job.Sources(), job.Values(), after);
    PartTarget(orig, f, t, job, job.Sources(), job.Values(), after);
    if Whole(orig, job.base, f, job.from) { FullTarget(orig, f, t, job, after); }
    if Whole(orig, job.base, f, job.to) { StaysWhole(orig, job.base, after, f, job.to); }
    SourcesArrive(job);
    MovesSeparate(orig, moves);
    hide Versions, At, R.Copying, Job.Objects, Job.States, Whole, MovesOk, Job.Aliases, NoEnds, AliasesHold, Separate;
    assert OfOne(moves, job.from, job.to);
    RetargetHolds(orig, job.base, after, moves, job, done);
  }

  lemma SourcesArrive(job: Job)
    requires job.Legal()
    ensures forall n | n in job.base.objects && InTree(n, job.from) :: Retree(n, job.to) in job.Objects(job.Sources())
  {
    forall n | n in job.base.objects && InTree(n, job.from) ensures Retree(n, job.to) in job.Objects(job.Sources()) {
      assert n in job.Sources();
    }
  }

  /** A skipped copy: only aliases move, to a target that is whole. */
  lemma SkipHolds(orig: Db, moves: map<string, string>, f: string, job: Job, done: set<string>, after: Db)
    requires MaySafely(orig, job.base, moves, f, job.from, job.to, job.fill) && job.Skips()
    requires after == job.base.(aliases := job.Aliases(done))
    ensures Held(orig, job.base, after, moves, f)
    ensures done == job.base.aliases.Keys ==> NoEnds(after.aliases, job.from)
    ensures forall r :: At(orig, after, f, r) == At(orig, job.base, f, r)
  {
    assert Marked(job.base.objects, job.to) && !job.fill;
    forall n | n in job.base.objects && InTree(n, job.from) ensures Retree(n, job.to) in job.base.objects {
      assert Retree(n, f) in orig.objects && InTree(Retree(n, f), f);
      assert Retree(Retree(n, f), job.to) == Retree(n, job.to);
    }
    MovesSeparate(orig, moves);
    assert OfOne(moves, job.from, job.to);
    assert SameBeyond(job.base, after, {f, moves[f]});
    hide Versions, MovesOk, Separate, OfOne, NoEnds, AliasesHold, SameBeyond;
    RetargetHolds(orig, job.base, after, moves, job, done);
  }

  /** The mark on the copy. */
  lemma MarkHolds(orig: Db, db: Db, moves: map<string, string>, f: string, r: string)
    requires MovesOk(orig, moves) && f in moves && r in {f, moves[f]} && Root(r) in db.objects
    requires Versions(orig, db, f, moves[f]) && AliasesHold(orig, db, moves)
    ensures Held(orig, db, Extension(db, r), moves, f)
    ensures At(orig, db, f, r).Here? && At(orig, Extension(db, r), f, r) == At(orig, db, f, r).(marked := true)
    ensures forall q | q != r :: At(orig, Extension(db, r), f, q) == At(orig, db, f, q)
  {
    MarkShows(orig, db, f, r);
    MarkVersions(orig, db, f, moves[f], r);
    hide Versions, AliasesHold, MovesOk, At, Marked;
    AliasesStay(orig, db, Extension(db, r), moves, r);
    assert SameBeyond(db, Extension(db, r), {f, moves[f]});
  }

  lemma MarkShows(orig: Db, db: Db, f: string, r: string)
    requires Root(r) in db.objects
    ensures At(orig, db, f, r).Here? && At(orig, Extension(db, r), f, r) == At(orig, db, f, r).(marked := true)
    ensures forall q | q != r :: At(orig, Extension(db, r), f, q) == At(orig, db, f, q)
  {
  }

  lemma MarkVersions(orig: Db, db: Db, f: string, t: string, r: string)
    requires Versions(orig, db, f, t) && Root(r) in db.objects
    ensures Versions(orig, Extension(db, r), f, t)
  {
  }

  /** The end of the copy. */
  lemma CopyHolds(orig: Db, moves: map<string, string>, f: string, job: Job)
    requires MaySafely(orig, job.base, moves, f, job.from, job.to, job.fill)
    ensures Held(orig, job.base, job.Copied(), moves, f) && NoEnds(job.Copied().aliases, job.from)
    ensures At(orig, job.Copied(), f, job.from) == At(orig, job.base, f, job.from)
    ensures R.Copied(At(orig, job.base, f, job.from), At(orig, job.base, f, job.to), job.fill,
            At(orig, job.Copied(), f, job.to))
  {
    if job.Skips() {
      SkipHolds(orig, moves, f, job, job.base.aliases.Keys, job.Copied());
    } else {
      var before := Db(job.Objects(job.Sources()), job.States(job.Values()), job.Aliases(job.base.aliases.Keys));
      AliasesFollowCopy(orig, moves, f, job, job.base.aliases.Keys, before);
      RootArrives(orig, moves, f, job, before);
      if !job.fill {
        MarkHolds(orig, before, moves, f, job.to);
        BeyondChains(job.base, before, job.Copied(), {f, moves[f]});
      }
    }
  }

  lemma RootArrives(orig: Db, moves: map<string, string>, f: string, job: Job, after: Db)
    requires MaySafely(orig, job.base, moves, f, job.from, job.to, job.fill) && !job.Skips()
    requires after.objects == job.Objects(job.Sources())
    ensures Root(job.to) in after.objects
    ensures JournalOf(after.objects[Root(job.to)]) == if job.fill then JournalOf(job.base.objects[Root(job.to)])
            else None
    ensures job.fill ==> Marked(after.objects, job.to)
    ensures !job.fill ==>
              job.Copied() == Extension(Db(after.objects, job.States(job.Values()),
                  job.Aliases(job.base.aliases.Keys)), job.to)
    ensures job.fill ==> job.Copied() == Db(after.objects, job.States(job.Values()), job.Aliases(job.base.aliases.Keys))
  {
    assert job.Legal() by { StartsLegal(orig, f, moves[f], job); }
    CopiedRoot(orig, f, moves[f], job);
    RootIsArrived(job);
    CopiedEnds(job);
    hide Job.Arrived, Job.Copied, Job.Objects, Starts, AliasesHold, MovesOk, Whole, Job.Kept;
  }

  lemma RootIsArrived(job: Job)
    requires job.Legal() && Root(job.from) in job.Sources()
    ensures Root(job.to) in job.Objects(job.Sources())
    ensures job.Objects(job.Sources())[Root(job.to)] == job.Arrived(Root(job.from))
  {
    assert Retree(Root(job.from), job.to) == Root(job.to) && Retree(Root(job.to), job.from) == Root(job.from);
  }

  lemma CopiedEnds(job: Job)
    requires !job.Skips()
    ensures var before := Db(job.Objects(job.Sources()), job.States(job.Values()), job.Aliases(job.base.aliases.Keys));
            job.Copied() == if job.fill then before else Extension(before, job.to)
  {
  }

  lemma DeleteBeyond(db: Db, src: string, dst: string, gone: set<Id>)
    requires DeleteOrder(db, src, gone) && Root(src) in db.objects && src != dst
    ensures SameBeyond(db, Deleted(db, gone), {src, dst}) && Agree(db, Deleted(db, gone), dst)
    ensures forall n | n in db.objects && !InTree(n, src) :: n in Deleted(db, gone).objects
    ensures Root(src) in Deleted(db, gone).objects ==> Deleted(db, gone).objects[Root(src)] == db.objects[Root(src)]
    ensures gone == TreeIds(db.objects, src) ==> Root(src) !in Deleted(db, gone).objects
  {
    assert Root(src) in TreeIds(db.objects, src);
  }

  lemma DeleteVersions(orig: Db, db: Db, f: string, t: string, gone: set<Id>)
    requires Versions(orig, db, f, t)
    ensures Versions(orig, Deleted(db, gone), f, t)
  {
    hide IsVersion;
  }

  /** The delete: what stands at the target does not change, and the source root goes last. */
  lemma DeleteHolds(orig: Db, db: Db, moves: map<string, string>, f: string, src: string, dst: string, gone: set<Id>)
    requires MovesOk(orig, moves) && f in moves && Between(f, moves[f], src, dst)
    requires Versions(orig, db, f, moves[f]) && AliasesHold(orig, db, moves) && NoEnds(db.aliases, src)
    requires DeleteOrder(db, src, gone) && Root(src) in db.objects
    ensures Held(orig, db, Deleted(db, gone), moves, f)
    ensures At(orig, Deleted(db, gone), f, dst) == At(orig, db, f, dst)
    ensures At(orig, db, f, src).Here? && R.Shrunk(At(orig, db, f, src), At(orig, Deleted(db, gone), f, src))
    ensures gone == TreeIds(db.objects, src) ==> At(orig, Deleted(db, gone), f, src).Gone?
  {
    var after := Deleted(db, gone);
    OtherRoots(orig, moves, f);
    DeleteBeyond(db, src, dst, gone);
    DeleteVersions(orig, db, f, moves[f], gone);
    AgreeAt(orig, db, after, f, dst);
    hide Versions, AliasesHold, NoEnds, MovesOk, DeleteOrder, SameBeyond, Agree, Whole, Deleted;
    assert {src, dst} == {f, moves[f]};
    assert after.aliases == db.aliases by { DeleteLeavesAliases(db, gone); }
    AliasesStay(orig, db, after, moves, src);
  }

  lemma DeleteLeavesAliases(db: Db, gone: set<Id>)
    ensures Deleted(db, gone).aliases == db.aliases
  {
  }

  /** A stage of the copy. */
  lemma StageHolds(orig: Db, moves: map<string, string>, f: string, job: Job, stage: Stage)
    requires MaySafely(orig, job.base, moves, f, job.from, job.to, job.fill) && job.Reaches(stage)
    ensures Held(orig, job.base, job.At(stage), moves, f)
    ensures At(orig, job.At(stage), f, job.from) == At(orig, job.base, f, job.from)
    ensures R.Copying(At(orig, job.base, f, job.from), At(orig, job.base, f, job.to), job.fill,
            At(orig, job.At(stage), f, job.to))
  {
    match stage
    case CopyingObjects(done) =>
      assert job.States({}) == job.base.states;
      hide MaySafely, Held, At, R.Copying, Job.Objects, Job.States, Job.Skips;
      PartHolds(orig, moves, f, job, done, {}, job.At(stage));
    case CopyingStates(done) =>
      hide MaySafely, Held, At, R.Copying, Job.Objects, Job.States, Job.Skips;
      PartHolds(orig, moves, f, job, job.Sources(), done, job.At(stage));
    case CopyingAliases(done) =>
      hide MaySafely, Held, At, R.Copying, Job.Objects, Job.States, Job.Skips, Whole, NoEnds;
      AliasesFollowCopy(orig, moves, f, job, done, job.At(stage));
    case Skipping(done) =>
      hide Held, Job.Aliases, NoEnds, Versions, Whole, AliasesHold, MovesOk;
      SkipHolds(orig, moves, f, job, done, job.At(stage));
    case Finished =>
      assert job.At(stage) == job.Copied();
      CopyHolds(orig, moves, f, job);
      hide Held, Job.At, Job.Copied, NoEnds, Versions, Whole, AliasesHold, MovesOk;
  }

  lemma BaseIsSafe(orig: Db, db: Db, moves: map<string, string>, f: string, src: string, dst: string,
      movingTo: Option<string>, fill: bool)
    requires MaySafely(orig, db, moves, f, src, dst, fill) && (movingTo.Some? ==> movingTo == Some(dst))
    ensures var base := Journaled(db, src, movingTo, dst, fill);
            && MaySafely(orig, base, moves, f, src, dst, fill) && Held(orig, db, base, moves, f)
            && At(orig, base, f, src) == R.Moving(At(orig, db, f, src), movingTo.Some?, fill)
            && At(orig, base, f, dst) == At(orig, db, f, dst)
  {
    JournalStep(orig, db, f, moves[f], src, dst, movingTo, fill);
    hide Versions, AliasesHold, NoEnds, SameBeyond, Journaled;
    var base := Journaled(db, src, movingTo, dst, fill);
    AliasesStay(orig, db, base, moves, src);
    if !fill && Marked(db.objects, dst) { StaysWhole(orig, db, base, f, dst); }
  }

  lemma HeldChains(orig: Db, db: Db, mid: Db, after: Db, moves: map<string, string>, f: string)
    requires f in moves && Held(orig, db, mid, moves, f) && Held(orig, mid, after, moves, f)
    ensures Held(orig, db, after, moves, f)
  {
    hide Versions, AliasesHold, SameBeyond;
    BeyondChains(db, mid, after, {f, moves[f]});
  }

  /** The delete after the copy. */
  lemma AfterCopyHolds(orig: Db, moves: map<string, string>, f: string, job: Job, gone: set<Id>)
    requires MaySafely(orig, job.base, moves, f, job.from, job.to, job.fill)
             && DeleteOrder(job.Copied(), job.from, gone)
    ensures var d := Deleted(job.Copied(), gone);
            && Held(orig, job.base, d, moves, f)
            && R.Shrunk(At(orig, job.base, f, job.from), At(orig, d, f, job.from))
            && R.Copied(At(orig, job.base, f, job.from), At(orig, job.base, f, job.to), job.fill,
               At(orig, d, f, job.to))
            && (gone == TreeIds(job.Copied().objects, job.from) ==> At(orig, d, f, job.from).Gone?)
  {
    CopyHolds(orig, moves, f, job);
    hide Job.Copied, Versions, AliasesHold, SameBeyond, NoEnds, DeleteOrder, Whole, Deleted, MovesOk, R.Copied;
    assert Root(job.from) in job.Copied().objects;
    DeleteHolds(orig, job.Copied(), moves, f, job.from, job.to, gone);
    HeldChains(orig, job.base, job.Copied(), Deleted(job.Copied(), gone), moves, f);
  }

  lemma NothingMoved(orig: Db, db: Db, moves: map<string, string>, f: string, src: string, dst: string, fill: bool)
    requires MaySafely(orig, db, moves, f, src, dst, fill)
    ensures Held(orig, db, db, moves, f)
  {
    hide Versions, AliasesHold, MovesOk, Whole;
  }

  /** Every point of a safe move. */
  lemma MoveHolds(orig: Db, db: Db, moves: map<string, string>, f: string, src: string, dst: string,
                  movingTo: Option<string>, fill: bool, d: Db)
    requires MaySafely(orig, db, moves, f, src, dst, fill) && (movingTo.Some? ==> movingTo == Some(dst))
    requires MovePoint(db, src, movingTo, dst, fill, d)
    ensures Held(orig, db, d, moves, f)
    ensures R.MovePasses(At(orig, db, f, src), At(orig, db, f, dst), movingTo.Some?, fill, At(orig, d, f, src),
            At(orig, d, f, dst))
  {
    var base := Journaled(db, src, movingTo, dst, fill);
    var job := Job(base, src, dst, fill);
    NothingMoved(orig, db, moves, f, src, dst, fill);
    BaseIsSafe(orig, db, moves, f, src, dst, movingTo, fill);
    hide Job.Copied, Job.At, Held, DeleteOrder, Deleted, Journaled, MaySafely, At;
    if d == db || d == base {
      assert At(orig, db, f, src).Here? by { RootSaysHere(orig, db, moves, f, src, dst, fill); }
    } else if stage :| job.Reaches(stage) && d == job.At(stage) {
      StageHolds(orig, moves, f, job, stage);
      HeldChains(orig, db, base, d, moves, f);
    } else {
      var gone :| DeleteOrder(job.Copied(), src, gone) && d == Deleted(job.Copied(), gone);
      AfterCopyHolds(orig, moves, f, job, gone);
      HeldChains(orig, db, base, d, moves, f);
    }
  }

  lemma RootSaysHere(orig: Db, db: Db, moves: map<string, string>, f: string, src: string, dst: string, fill: bool)
    requires MaySafely(orig, db, moves, f, src, dst, fill)
    ensures At(orig, db, f, src).Here? && (fill ==> R.MarkedThere(At(orig, db, f, dst)))
  {
    hide Versions, AliasesHold, Whole, MovesOk, Roots2;
  }

  /** And its end. */
  lemma MoveEnds(orig: Db, db: Db, moves: map<string, string>, f: string, src: string, dst: string,
                 movingTo: Option<string>, fill: bool)
    requires MaySafely(orig, db, moves, f, src, dst, fill) && (movingTo.Some? ==> movingTo == Some(dst))
    ensures var d := MovedTree(db, src, movingTo, dst, fill);
            && Held(orig, db, d, moves, f) && At(orig, d, f, src).Gone?
            && R.Copied(At(orig, db, f, src), At(orig, db, f, dst), fill, At(orig, d, f, dst))
  {
    var base := Journaled(db, src, movingTo, dst, fill);
    var job := Job(base, src, dst, fill);
    BaseIsSafe(orig, db, moves, f, src, dst, movingTo, fill);
    CopiedIs(db, src, movingTo, dst, fill);
    hide Job.Copied, Held, Deleted, Journaled, CopiedTree, Versions, AliasesHold, Whole, MovesOk;
    AfterCopyHolds(orig, moves, f, job, TreeIds(job.Copied().objects, src));
    HeldChains(orig, db, base, MovedTree(db, src, movingTo, dst, fill), moves, f);
  }
}
