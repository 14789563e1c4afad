/** What a whole move of a tree leaves at any write, said of the databases alone: journal, copy, delete. */
module TreeMove {
  import opened Options
  import opened ObjectIds
  import opened DeviceMove
  import opened DeviceCopy
  import MoveInvariant
  import MigrationRun

  /** `after` is `before` with the journal on the root of `f`, where the move writes one. */
  predicate Noted(before: Db, f: string, movingTo: Option<string>, t: string, fill: bool, after: Db) {
    if fill || movingTo == Some(t) then after == before
    else
      && Root(f) in before.objects
      && after == before.(objects := before.objects[Root(f) := before.objects[Root(f)].(movingTo := Some(t))])
  }

  /**
   * `after` is `before` without some ids of the tree `f` and their values: nothing else changes, an id goes before the
   * shallower ones, and the root only with all the others.
   */
  ghost predicate TakenAway(before: Db, f: string, after: Db) {
    && after.aliases == before.aliases
    && (forall id | !InTree(id, f) ::
        SameAt(before.objects, after.objects, id) && SameAt(before.states, after.states, id))
    && (forall id | InTree(id, f) ::
          if id in before.objects && id !in after.objects then id !in after.states
          else SameAt(before.objects, after.objects, id) && SameAt(before.states, after.states, id))
    && (forall id, other | InTree(id, f) && InTree(other, f) && id in before.objects && id !in after.objects
            && other in after.objects ::
          id.path != [] && |other.path| <= |id.path|)
  }

  lemma DeletedIsTaken(db: Db, f: string, gone: set<Id>)
    requires MoveInvariant.DeleteOrder(db, f, gone)
    ensures TakenAway(db, f, MoveInvariant.Deleted(db, gone))
  {
    var after := MoveInvariant.Deleted(db, gone);
    forall id, other | InTree(id, f) && InTree(other, f) && id in db.objects && id !in after.objects
        && other in after.objects
      ensures id.path != [] && |other.path| <= |id.path|
    {
      assert other in TreeIds(db.objects, f) - gone && id in gone;
      assert id.path == [] ==> id == Root(f);
    }
  }

  lemma JournaledIsNoted(db: Db, f: string, movingTo: Option<string>, t: string, fill: bool)
    requires Root(f) in db.objects
    ensures Noted(db, f, movingTo, t, fill, MigrationRun.Journaled(db, f, movingTo, t, fill))
  {
  }

  /**
   * Whatever write a move is stopped at: nothing was done, or the journal stands and the copy is on its way, or the
   * copy has ended and part of the old tree is gone.
   */
  lemma MoveIsStopped(db: Db, f: string, movingTo: Option<string>, t: string, fill: bool, d: Db)
      returns (noted: Db, copied: Db)
    requires f != t && Root(f) in db.objects && MigrationRun.MovePoint(db, f, movingTo, t, fill, d)
    ensures Noted(db, f, movingTo, t, fill, noted)
    ensures || d == db || CopyPoint(noted, f, t, fill, d)
            || (CopyEnd(noted, f, t, fill, copied) && TakenAway(copied, f, d))
  {
    hide CopyPoint, CopyEnd, TakenAway, MoveInvariant.DeleteOrder, MoveInvariant.Deleted, Job.At, Job.Copied;
    noted := MigrationRun.Journaled(db, f, movingTo, t, fill);
    JournaledIsNoted(db, f, movingTo, t, fill);
    hide MigrationRun.Journaled;
    var job := Job(noted, f, t, fill);
    copied := job.Copied();
    FinishedIsEnd(job);
    StartIsPoint(noted, f, t, fill);
    if stage :| job.Reaches(stage) && d == job.At(stage) {
      StageIsPoint(job, stage);
    } else if gone :| MoveInvariant.DeleteOrder(copied, f, gone) && d == MoveInvariant.Deleted(copied, gone) {
      DeletedIsTaken(copied, f, gone);
    }
  }

  /** A move that was not stopped: the copy has ended, and nothing of the old tree is left but values of no object. */
  lemma MoveHasEnded(db: Db, f: string, movingTo: Option<string>, t: string, fill: bool) returns (noted: Db, copied: Db)
    requires f != t && Root(f) in db.objects
    ensures Noted(db, f, movingTo, t, fill, noted) && CopyEnd(noted, f, t, fill, copied)
    ensures var after := MigrationRun.MovedTree(db, f, movingTo, t, fill);
            TakenAway(copied, f, after) && forall id | id in after.objects :: !InTree(id, f)
  {
    hide CopyEnd, TakenAway, Job.Copied;
    noted := MigrationRun.Journaled(db, f, movingTo, t, fill);
    JournaledIsNoted(db, f, movingTo, t, fill);
    hide MigrationRun.Journaled;
    copied := Job(noted, f, t, fill).Copied();
    FinishedIsEnd(Job(noted, f, t, fill));
    AllIsInOrder(copied, f);
    DeletedIsTaken(copied, f, TreeIds(copied.objects, f));
  }

  lemma AllIsInOrder(db: Db, f: string)
    ensures MoveInvariant.DeleteOrder(db, f, TreeIds(db.objects, f))
  {
  }
}
