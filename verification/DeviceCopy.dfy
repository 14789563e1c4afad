/** What a copy leaves at every single id, said of the databases before and after alone. */
module DeviceCopy {
  import opened Options
  import opened ObjectIds
  import opened DeviceMove

  // ----- one datum, one object, one alias -----

  /** An enabled recording without a series of its own goes on under the id it began with; no other setting changes. */
  predicate SeriesKept(before: Setting, after: Setting, oldId: string) {
    if before.Recording? && before.enabled && (before.aliasId.None? || before.aliasId.value == "") then
      after == before.(aliasId := Some(oldId))
    else after == before
  }

  predicate SettingsKept(before: Option<Custom>, after: Option<Custom>, oldId: string) {
    match before
    case None => after.None?
    case Some(c) =>
      after.Some? && after.value.Keys == c.Keys && forall k | k in c :: SeriesKept(c[k], after.value[k], oldId)
  }

  /** The object `id` as it stands in the new tree: a device object loses its journal and its link follows. */
  predicate IsCopy(o: Object, copy: Object, id: Id, from: string, to: string) {
    && (copy.kind, copy.sku, copy.deviceId, copy.idScheme, copy.body)
           == (o.kind, o.sku, o.deviceId, o.idScheme, o.body)
    && (if o.kind == State then SettingsKept(o.custom, copy.custom, Print(id)) else copy.custom == o.custom)
    && if id != Below(from, []) then copy.movingTo == o.movingTo && copy.onlineId == o.onlineId
       else
         && copy.movingTo.None?
         && (match o.onlineId
             case Some(Below(root, path)) => copy.onlineId == Some(Below(if root == from then to else root, path))
             case _ => copy.onlineId == o.onlineId)
  }

  predicate Unset(custom: Option<Custom>) {
    custom.None? || custom.value == map[]
  }

  /**
   * A kept object stays, but for settings: a datapoint without any takes those of its leftover. An object the target
   * does not have, and in a full copy every one, becomes the copy of its source.
   */
  predicate ObjectArrived(base: Db, from: string, to: string, fill: bool, objects: map<Id, Object>, id: Id)
    requires id.Below?
  {
    var source := Below(from, id.path);
    if source !in base.objects then SameAt(base.objects, objects, id)
    else if id !in objects then false
    else if !(fill && id in base.objects) then IsCopy(base.objects[source], objects[id], source, from, to)
    else if base.objects[source].kind == State && !Unset(base.objects[source].custom)
            && Unset(base.objects[id].custom) then
      && objects[id] == base.objects[id].(custom := objects[id].custom)
      && SettingsKept(base.objects[source].custom, objects[id].custom, Print(source))
    else objects[id] == base.objects[id]
  }

  /** One end of an alias follows the move. */
  predicate EndFollows(before: Id, after: Id, from: string, to: string) {
    if before.Below? && before.root == from then after == Below(to, before.path) else after == before
  }

  predicate EndsFollow(before: Option<Id>, after: Option<Id>, from: string, to: string) {
    if before.None? then after.None? else after.Some? && EndFollows(before.value, after.value, from, to)
  }

  predicate AliasFollows(before: Alias, after: Alias, from: string, to: string) {
    && after.body == before.body
    && match before.target
       case NoTarget => after.target == NoTarget
       case Plain(id) => after.target.Plain? && EndFollows(id, after.target.id, from, to)
       case Pair(read, write) =>
         && after.target.Pair?
         && EndsFollow(read, after.target.read, from, to) && EndsFollow(write, after.target.write, from, to)
  }

  // ----- the whole database -----

  /** The target already stands as a whole copy: only the aliases are looked at again. */
  predicate IsWhole(base: Db, to: string, fill: bool) {
    !fill && Below(to, []) in base.objects && base.objects[Below(to, [])].idScheme == Some(3)
  }

  /** Outside the target tree no object and no value changes. */
  ghost predicate RestStays(base: Db, to: string, db: Db) {
    forall id | !InTree(id, to) :: SameAt(base.states, db.states, id) && SameAt(base.objects, db.objects, id)
  }

  ghost predicate ObjectsArrived(base: Db, from: string, to: string, fill: bool, objects: map<Id, Object>) {
    forall id | InTree(id, to) :: ObjectArrived(base, from, to, fill, objects, id)
  }

  ghost predicate AliasesFollow(base: Db, from: string, to: string, aliases: map<string, Alias>) {
    aliases.Keys == base.aliases.Keys
    && forall a | a in base.aliases :: AliasFollows(base.aliases[a], aliases[a], from, to)
  }

  /**
   * A point of a copy: every object, value and alias is as before or has arrived. Objects arrive shorter ids first, the
   * device object of a new tree after all others; values are written when all objects have arrived, aliases after the
   * values.
   */
  ghost predicate OnTheWay(base: Db, from: string, to: string, fill: bool, db: Db) {
    && RestStays(base, to, db)
    && (forall id | InTree(id, to) ::
          SameAt(base.objects, db.objects, id) || ObjectArrived(base, from, to, fill, db.objects, id))
    && (forall id | InTree(id, to) ::
          SameAt(base.states, db.states, id) || ValueArrived(base, from, fill, db.states, id))
    && db.aliases.Keys == base.aliases.Keys
    && (forall a | a in base.aliases ::
          db.aliases[a] == base.aliases[a] || AliasFollows(base.aliases[a], db.aliases[a], from, to))
    && (!IsWhole(base, to, fill) ==>
          && (db.states != base.states ==> ObjectsArrived(base, from, to, fill, db.objects))
          && (db.aliases != base.aliases ==>
                ObjectsArrived(base, from, to, fill, db.objects) && ValuesArrived(base, from, to, fill, db.states))
          && (!(fill && Below(to, []) in base.objects) && !SameAt(base.objects, db.objects, Below(to, [])) ==>
                ObjectsArrived(base, from, to, fill, db.objects)))
    && (IsWhole(base, to, fill) ==> db.objects == base.objects && db.states == base.states)
    && ShorterFirst(base, from, to, fill, db.objects)
  }

  ghost predicate ShorterFirst(base: Db, from: string, to: string, fill: bool, objects: map<Id, Object>) {
    forall id, other | InTree(id, to) && InTree(other, to) && id.path != [] && other.path != []
        && |Print(Below(from, other.path))| < |Print(Below(from, id.path))| && !SameAt(base.objects, objects, id) ::
      ObjectArrived(base, from, to, fill, objects, other)
  }

  /** `objects` are `before` with the device object of a full copy marked. */
  predicate MarkedLast(fill: bool, to: string, before: map<Id, Object>, objects: map<Id, Object>) {
    if fill then objects == before
    else
      var root := Below(to, []);
      && root in objects && objects[root].idScheme == Some(3)
      && objects == before[root := objects[root]]
      && (root in before ==> objects[root] == before[root].(idScheme := Some(3)))
  }

  /** The end of a copy: everything has arrived, and at the very last a full copy is marked. */
  ghost predicate CopyEnd(base: Db, from: string, to: string, fill: bool, db: Db) {
    && RestStays(base, to, db) && AliasesFollow(base, from, to, db.aliases)
    && if IsWhole(base, to, fill) then db.states == base.states && db.objects == base.objects
       else
         && ValuesArrived(base, from, to, fill, db.states)
         && exists unmarked ::
              ObjectsArrived(base, from, to, fill, unmarked) && MarkedLast(fill, to, unmarked, db.objects)
  }

  ghost predicate CopyPoint(base: Db, from: string, to: string, fill: bool, db: Db) {
    OnTheWay(base, from, to, fill, db) || CopyEnd(base, from, to, fill, db)
  }

  // ----- the stages are such points -----

  lemma CustomIsKept(custom: Option<Custom>, oldId: string)
    ensures SettingsKept(custom, KeepHistoryUnder(custom, oldId), oldId)
  {
  }

  lemma CopyIs(job: Job, id: Id)
    requires id in job.Sources()
    ensures IsCopy(job.base.objects[id], job.Copy(id), id, job.from, job.to)
  {
    hide KeepHistoryUnder, SettingsKept;
    CustomIsKept(job.base.objects[id].custom, Print(id));
  }

  lemma SettingsShow(custom: Option<Custom>, oldId: string)
    ensures HasSettings(KeepHistoryUnder(custom, oldId)) <==> !Unset(custom)
  {
    if custom.Some? {
      assert KeepHistoryUnder(custom, oldId).value.Keys == custom.value.Keys;
      assert custom.value != map[] ==> custom.value.Keys != {};
    }
  }

  lemma ArrivedIs(job: Job, id: Id, objects: map<Id, Object>)
    requires job.Legal() && id in job.Sources()
    requires Retree(id, job.to) in objects && objects[Retree(id, job.to)] == job.Arrived(id)
    ensures ObjectArrived(job.base, job.from, job.to, job.fill, objects, Retree(id, job.to))
  {
    hide IsCopy, SettingsKept, KeepHistoryUnder;
    CopyIs(job, id);
    SettingsShow(job.base.objects[id].custom, Print(id));
    CustomIsKept(job.base.objects[id].custom, Print(id));
  }

  lemma ObjectsAre(job: Job, done: set<Id>, id: Id)
    requires job.Legal() && done <= job.Sources()
    ensures !InTree(id, job.to) ==> SameAt(job.base.objects, job.Objects(done), id)
    ensures InTree(id, job.to) && Retree(id, job.from) !in done ==> SameAt(job.base.objects, job.Objects(done), id)
    ensures InTree(id, job.to) && (Retree(id, job.from) in done || done == job.Sources()) ==>
            ObjectArrived(job.base, job.from, job.to, job.fill, job.Objects(done), id)
  {
    hide ObjectArrived;
    if InTree(id, job.to) {
      var source := Retree(id, job.from);
      assert Retree(source, job.to) == id;
      if source in done {
        ArrivedIs(job, source, job.Objects(done));
      } else if done == job.Sources() {
        assert source !in job.base.objects;
        NothingArrives(job, id, job.Objects(done));
      }
    }
  }

  lemma NothingArrives(job: Job, id: Id, objects: map<Id, Object>)
    requires InTree(id, job.to) && Below(job.from, id.path) !in job.base.objects
             && SameAt(job.base.objects, objects, id)
    ensures ObjectArrived(job.base, job.from, job.to, job.fill, objects, id)
  {
  }

  lemma AliasFollowed(a: Alias, from: string, to: string)
    ensures AliasFollows(a, Retargeted(a, from, to), from, to)
  {
  }

  lemma AliasesAre(job: Job, done: set<string>)
    ensures job.Aliases(done).Keys == job.base.aliases.Keys
    ensures forall a | a in job.base.aliases ::
              || job.Aliases(done)[a] == job.base.aliases[a]
              || AliasFollows(job.base.aliases[a], job.Aliases(done)[a], job.from, job.to)
    ensures job.base.aliases.Keys <= done ==> AliasesFollow(job.base, job.from, job.to, job.Aliases(done))
  {
    hide AliasFollows, Retargeted;
    forall a | a in job.base.aliases
      ensures AliasFollows(job.base.aliases[a], Retargeted(job.base.aliases[a], job.from, job.to), job.from, job.to)
    {
      AliasFollowed(job.base.aliases[a], job.from, job.to);
    }
  }

  lemma ObjectsOnTheWay(job: Job, done: set<Id>)
    requires job.Legal() && !job.Skips() && done <= job.Sources() && job.CopyOrder(done)
    ensures OnTheWay(job.base, job.from, job.to, job.fill, Db(job.Objects(done), job.base.states, job.base.aliases))
  {
    hide ObjectArrived, ValueArrived, AliasFollows, Job.Objects;
    var root := Below(job.to, []);
    forall id
      ensures !InTree(id, job.to) ==> SameAt(job.base.objects, job.Objects(done), id)
      ensures InTree(id, job.to) ==>
              || SameAt(job.base.objects, job.Objects(done), id)
              || ObjectArrived(job.base, job.from, job.to, job.fill, job.Objects(done), id)
      ensures InTree(id, job.to) && done == job.Sources() ==>
              ObjectArrived(job.base, job.from, job.to, job.fill, job.Objects(done), id)
    {
      ObjectsAre(job, done, id);
    }
    ShortObjectsFirst(job, done);
    if !(job.fill && root in job.base.objects) && !SameAt(job.base.objects, job.Objects(done), root) {
      ObjectsAre(job, done, root);
      assert Retree(root, job.from) == Root(job.from) && Retree(Root(job.from), job.to) == root;
      assert Root(job.from) in done && Root(job.from) in job.Late();
      assert done == job.Sources();
    }
  }

  lemma ShortObjectsFirst(job: Job, done: set<Id>)
    requires job.Legal() && done <= job.Sources() && job.CopyOrder(done)
    ensures ShorterFirst(job.base, job.from, job.to, job.fill, job.Objects(done))
  {
    hide ObjectArrived, Job.Objects, Print;
    forall id, other | InTree(id, job.to) && InTree(other, job.to) && id.path != [] && other.path != []
        && |Print(Below(job.from, other.path))| < |Print(Below(job.from, id.path))|
        && !SameAt(job.base.objects, job.Objects(done), id)
      ensures ObjectArrived(job.base, job.from, job.to, job.fill, job.Objects(done), other)
    {
      ObjectsAre(job, done, id);
      ObjectsAre(job, done, other);
      var source, behind := Retree(id, job.from), Retree(other, job.from);
      assert source in done;
      if behind !in done {
        assert Length(behind) < Length(source);
        assert behind !in job.Sources();
        NothingArrives(job, other, job.Objects(done));
      }
    }
  }

  lemma AllObjectsArrive(job: Job)
    requires job.Legal()
    ensures ObjectsArrived(job.base, job.from, job.to, job.fill, job.Objects(job.Sources()))
    ensures forall id | !InTree(id, job.to) :: SameAt(job.base.objects, job.Objects(job.Sources()), id)
  {
    hide ObjectArrived, Job.Objects;
    forall id
      ensures InTree(id, job.to) ==>
              ObjectArrived(job.base, job.from, job.to, job.fill, job.Objects(job.Sources()), id)
      ensures !InTree(id, job.to) ==> SameAt(job.base.objects, job.Objects(job.Sources()), id)
    {
      ObjectsAre(job, job.Sources(), id);
    }
  }

  lemma StatesOnTheWay(job: Job, done: set<Id>)
    requires job.Legal() && !job.Skips() && done <= job.Values()
    ensures OnTheWay(job.base, job.from, job.to, job.fill,
                Db(job.Objects(job.Sources()), job.States(done), job.base.aliases))
  {
    hide ObjectArrived, ValueArrived, AliasFollows, Job.Objects, Job.States, Print;
    AllObjectsArrive(job);
    forall id
      ensures !InTree(id, job.to) ==> SameAt(job.base.states, job.States(done), id)
      ensures InTree(id, job.to) ==>
              || SameAt(job.base.states, job.States(done), id)
              || ValueArrived(job.base, job.from, job.fill, job.States(done), id)
    {
      StatesAre(job, done, id);
    }
  }

  lemma AliasesOnTheWay(job: Job, done: set<string>)
    requires job.Legal()
    ensures job.Skips() ==> OnTheWay(job.base, job.from, job.to, job.fill, job.base.(aliases := job.Aliases(done)))
    ensures !job.Skips() ==>
            OnTheWay(job.base, job.from, job.to, job.fill,
                Db(job.Objects(job.Sources()), job.States(job.Values()), job.Aliases(done)))
  {
    hide ObjectArrived, ValueArrived, AliasFollows, Job.Objects, Job.States, Job.Aliases, Print;
    AllObjectsArrive(job);
    AllValuesArrive(job);
    AliasesAre(job, done);
  }

  lemma FinishedIsEnd(job: Job)
    requires job.Legal()
    ensures CopyEnd(job.base, job.from, job.to, job.fill, job.Copied())
  {
    hide ObjectArrived, ValueArrived, AliasFollows, Job.Objects, Job.States, Job.Aliases;
    AliasesAre(job, job.base.aliases.Keys);
    if !job.Skips() {
      AllObjectsArrive(job);
      AllValuesArrive(job);
      assert ObjectsArrived(job.base, job.from, job.to, job.fill, job.Objects(job.Sources()));
      assert MarkedLast(job.fill, job.to, job.Objects(job.Sources()), job.Copied().objects);
    }
  }

  /** Every point of a copy is one of these, and its result is the end. */
  lemma StageIsPoint(job: Job, stage: Stage)
    requires job.Legal() && job.Reaches(stage)
    ensures CopyPoint(job.base, job.from, job.to, job.fill, job.At(stage))
  {
    hide OnTheWay, CopyEnd, Job.Objects, Job.States, Job.Aliases;
    match stage {
      case CopyingObjects(done) => ObjectsOnTheWay(job, done);
      case CopyingStates(done) => StatesOnTheWay(job, done);
      case CopyingAliases(done) => AliasesOnTheWay(job, done);
      case Skipping(done) => AliasesOnTheWay(job, done);
      case Finished => FinishedIsEnd(job);
    }
  }

  /**
   * A copy under any plan: whatever write it dies at or is refused, all it leaves is a point of the copy of what it
   * found, and when nothing stopped it, everything has arrived.
   */
  method CopyTree(store: Store, from: string, to: string, fill: bool) returns (r: Outcome)
    requires from != to && store.writes == |store.trace|
    requires forall i | 0 <= i < |store.trace| :: store.trace[i].outcome == store.plan(i, store.trace[i].write)
    modifies store
    ensures |old(store.trace)| <= |store.trace|
    ensures forall i | |old(store.trace)| <= i < |store.trace| ::
              CopyPoint(old(store.View()), from, to, fill, store.trace[i].db)
    ensures CopyPoint(old(store.View()), from, to, fill, store.View())
    ensures r == Done ==> CopyEnd(old(store.View()), from, to, fill, store.View())
  {
    hide CopyPoint, CopyEnd;
    ghost var base, job, before := store.View(), Job(store.View(), from, to, fill), store.trace;
    ghost var watch := Watch(db => CopyPoint(base, from, to, fill, db), w => CopyWrite(w, to), store.plan, base,
        before);
    forall stage | job.Reaches(stage) ensures watch.p(job.At(stage)) { StageIsPoint(job, stage); }
    FinishedIsEnd(job);
    assert before[|before|..] == [];
    r := CopyDeviceTree(store, from, to, fill, watch);
    StartIsPoint(base, from, to, fill);
    LastIsPoint(base, from, to, fill, store.trace, |before|, store.View());
  }

  lemma LastIsPoint(base: Db, from: string, to: string, fill: bool, trace: seq<Point>, mark: nat, end: Db)
    requires mark <= |trace| && Chained(base, trace[mark..], end) && CopyPoint(base, from, to, fill, base)
    requires forall i | mark <= i < |trace| :: CopyPoint(base, from, to, fill, trace[i].db)
    ensures CopyPoint(base, from, to, fill, end)
  {
    hide CopyPoint, Applied;
    if mark < |trace| { assert end == trace[|trace| - 1].db; }
  }

  lemma StartIsPoint(base: Db, from: string, to: string, fill: bool)
    requires from != to
    ensures CopyPoint(base, from, to, fill, base)
  {
    hide CopyPoint;
    var job := Job(base, from, to, fill);
    NothingDone(job);
    if job.Skips() {
      StageIsPoint(job, Skipping({}));
    } else {
      assert job.CopyOrder({});
      StageIsPoint(job, CopyingObjects({}));
    }
  }
}
