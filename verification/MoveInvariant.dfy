/**
 * What a store looks like at any moment of any number of interrupted migrations, seen from the store `orig` it all
 * started from. `moves` remembers which tree got which target; it is proof bookkeeping, the program keeps it only as
 * the journal on the old root.
 */
module MoveInvariant {
  import opened Options
  import opened ObjectIds
  import opened DeviceMove
  import DeviceId

  // ----- trees -----

  const PSEUDO_SKUS := {"SameModeGroup", "DreamViewScenic"}

  /** A device object that names its device. */
  predicate Identified(o: Object) {
    && o.kind == Device
    && o.sku.Some? && o.deviceId.Some? && o.deviceId.value != ""
    && o.sku.value !in PSEUDO_SKUS
  }

  predicate IsTree(objects: map<Id, Object>, root: string) {
    RootForm(root) && Root(root) in objects && Identified(objects[Root(root)])
  }

  /** Which objects are the root of a device tree, field by field. */
  lemma IsTreeIff(objects: map<Id, Object>, root: string)
    ensures IsTree(objects, root) <==>
              && (exists id :: id != "" && '.' !in id && (root == "devices." + id || root == "groups." + id))
              && Below(root, []) in objects
              && var o := objects[Below(root, [])];
                 && o.kind == Device && o.sku.Some? && o.deviceId.Some? && o.deviceId.value != ""
                 && o.sku.value != "SameModeGroup" && o.sku.value != "DreamViewScenic"
  {
    RootFormIs(root);
  }

  function KeyOf(objects: map<Id, Object>, root: string): string
    requires IsTree(objects, root)
  {
    DeviceId.MapKey(objects[Root(root)].sku.value, objects[Root(root)].deviceId.value)
  }

  /** The device with this key had the tree `f`. */
  ghost predicate Owns(orig: Db, f: string, key: string) {
    IsTree(orig.objects, f) && KeyOf(orig.objects, f) == key
  }

  predicate Marked(objects: map<Id, Object>, root: string) {
    Root(root) in objects && objects[Root(root)].idScheme == Some(DeviceId.ID_SCHEME)
  }

  ghost predicate NothingIn(db: Db, root: string) {
    && (forall id | id in db.objects :: !InTree(id, root))
    && (forall id | id in db.states :: !InTree(id, root))
  }

  /** No id the rule can hand to an unmarked device is occupied by anything but that device or a marked tree. */
  ghost predicate TargetsFree(db: Db) {
    forall f, c | IsTree(db.objects, f) && !Marked(db.objects, f) && c != f
                  && DeviceId.IsCandidate(db.objects[Root(f)].sku.value, db.objects[Root(f)].deviceId.value, c) ::
      (IsTree(db.objects, c) && Marked(db.objects, c)) || NothingIn(db, c)
  }

  /** The store before the first migration: one tree a device, no journal yet, no value on a device object itself. */
  ghost predicate WellFormed(db: Db) {
    && (forall f, g | IsTree(db.objects, f) && IsTree(db.objects, g) && f != g ::
        KeyOf(db.objects, f) != KeyOf(db.objects, g))
    && (forall f | IsTree(db.objects, f) :: db.objects[Root(f)].movingTo == None && Root(f) !in db.states)
    && TargetsFree(db)
  }

  /**
   * A 2.x store needs no check of targets: its tree ids carry an underscore, which the new rule never writes, and what
   * stands beside the trees, such as `groups.info.online`, stands under the reserved id, which it never hands out.
   */
  lemma LegacyTargetsAreFree(db: Db)
    requires forall id | (id in db.objects || id in db.states) && id.Below? ::
               || '_' in id.root || id.root in DeviceId.RESERVED_ROOTS
               || (IsTree(db.objects, id.root) && Marked(db.objects, id.root))
    ensures TargetsFree(db)
  {
    forall f, c | IsTree(db.objects, f) && !Marked(db.objects, f) && c != f
                  && DeviceId.IsCandidate(db.objects[Root(f)].sku.value, db.objects[Root(f)].deviceId.value, c)
      ensures (IsTree(db.objects, c) && Marked(db.objects, c)) || NothingIn(db, c)
    {
      DeviceId.CandidateForm(db.objects[Root(f)].sku.value, db.objects[Root(f)].deviceId.value, c);
    }
  }

  // ----- one moving tree -----

  /** The move of one tree as it would run on the untouched store. */
  function Origin(orig: Db, f: string, t: string): Job {
    Job(orig, f, t, false)
  }

  /** The old tree: what is left of it is as it was, the root with its journal. */
  ghost predicate OldTree(orig: Db, db: Db, f: string, t: string) {
    && (forall id | id in db.objects && InTree(id, f) ::
          id in orig.objects && db.objects[id] == if id == Root(f) then Patched(orig.objects[id], Journal(t))
              else orig.objects[id])
    && (forall id | id in db.states && InTree(id, f) :: id in orig.states && db.states[id] == orig.states[id])
    && (forall id | id in orig.states && InTree(id, f) && id !in db.states :: id in orig.objects && id !in db.objects)
    && (forall id | id in db.objects && InTree(id, f) :: Root(f) in db.objects)
  }

  /** The new tree: only copies stand there, and its root only over a whole copy of the objects. */
  ghost predicate NewTree(orig: Db, db: Db, f: string, t: string) {
    && (forall n | n in db.objects && InTree(n, t) ::
          && Retree(n, f) in orig.objects
          && var copy := Origin(orig, f, t).Copy(Retree(n, f));
             db.objects[n] == copy || (n == Root(t) && db.objects[n] == Patched(copy, Mark)))
    && (forall n | n in db.states && InTree(n, t) ::
          Retree(n, f) in Origin(orig, f, t).Values() && db.states[n] == orig.states[Retree(n, f)])
    && (Root(t) in db.objects ==> forall id | id in orig.objects && InTree(id, f) :: Retree(id, t) in db.objects)
  }

  /** The copy stands whole and marked. */
  ghost predicate Complete(orig: Db, db: Db, f: string, t: string) {
    && Marked(db.objects, t)
    && (forall id | id in Origin(orig, f, t).Values() :: Retree(id, t) in db.states)
  }

  /** Nothing of the old tree is gone before the copy is complete. */
  ghost predicate TreeInv(orig: Db, db: Db, f: string, t: string) {
    && OldTree(orig, db, f, t)
    && NewTree(orig, db, f, t)
    && (Lost(orig, db, f) ==> Complete(orig, db, f, t))
  }

  ghost predicate Lost(orig: Db, db: Db, f: string) {
    exists id :: id in orig.objects && InTree(id, f) && id !in db.objects
  }

  // ----- aliases -----

  /** The three places an alias can name an id in. */
  function End(t: Target, place: int): Option<Id> {
    match t
    case NoTarget => None
    case Plain(id) => if place == 0 then Some(id) else None
    case Pair(read, write) => if place == 1 then read else if place == 2 then write else None
  }

  predicate NoEnds(aliases: map<string, Alias>, root: string) {
    forall a, place | a in aliases && 0 <= place < 3 && End(aliases[a].target, place).Some? ::
      !InTree(End(aliases[a].target, place).value, root)
  }

  /** An end is where it was, or follows its tree to a target whose root stands. */
  ghost predicate EndFollows(db: Db, moves: map<string, string>, before: Option<Id>, after: Option<Id>) {
    match before
    case None => after == None
    case Some(id) =>
      || after == before
      || (id.Below? && id.root in moves && after == Some(Retree(id, moves[id.root]))
          && Root(moves[id.root]) in db.objects)
  }

  ghost predicate AliasFollows(db: Db, moves: map<string, string>, before: Alias, after: Alias) {
    && after.body == before.body
    && (before.target.NoTarget? <==> after.target.NoTarget?)
    && (before.target.Plain? <==> after.target.Plain?)
    && forall place | 0 <= place < 3 :: EndFollows(db, moves, End(before.target, place), End(after.target, place))
  }

  ghost predicate AliasInv(orig: Db, db: Db, moves: map<string, string>) {
    && db.aliases.Keys == orig.aliases.Keys
    && (forall a | a in db.aliases :: AliasFollows(db, moves, orig.aliases[a], db.aliases[a]))
    && (forall f | f in moves && Lost(orig, db, f) :: NoEnds(db.aliases, f))
  }

  // ----- everything -----

  /** The targets handed out so far. */
  ghost predicate MovesOk(orig: Db, moves: map<string, string>) {
    && (forall f | f in moves ::
          && IsTree(orig.objects, f) && !Marked(orig.objects, f)
          && RootForm(moves[f]) && NothingIn(orig, moves[f]))
    && (forall f, g | f in moves && g in moves && f != g :: moves[f] != moves[g])
  }

  function Targets(moves: map<string, string>): set<string> {
    set f | f in moves :: moves[f]
  }

  predicate Concerned(id: Id, moves: map<string, string>) {
    id.Below? && (id.root in moves || id.root in Targets(moves))
  }

  /** Whatever no move touches is as it was, except that a tree under its own id may have got the mark. */
  ghost predicate RestInv(orig: Db, db: Db, moves: map<string, string>) {
    && (forall id | !Concerned(id, moves) && (id in orig.objects || id in db.objects) ::
          && id in orig.objects && id in db.objects
          && (db.objects[id] == orig.objects[id]
              || (id.Below? && id.path == [] && IsTree(orig.objects, id.root)
                  && db.objects[id] == Patched(orig.objects[id], Mark))))
    && (forall id | !Concerned(id, moves) && (id in orig.states || id in db.states) ::
          id in orig.states && id in db.states && db.states[id] == orig.states[id])
  }

  ghost predicate Inv(orig: Db, db: Db, moves: map<string, string>) {
    && WellFormed(orig)
    && MovesOk(orig, moves)
    && RestInv(orig, db, moves)
    && (forall f | f in moves :: TreeInv(orig, db, f, moves[f]))
    && AliasInv(orig, db, moves)
  }

  // ----- what it is for -----

  function ValueAt(db: Db, id: Id): Option<Datum> {
    if id in db.states && db.states[id].val.Some? then Some(db.states[id]) else None
  }

  /** The object `id` of the original store lives on below `home`, with its value and its recording settings. */
  ghost predicate LivesBelow(orig: Db, db: Db, id: Id, home: string)
    requires id in orig.objects && id.Below?
  {
    var n := Retree(id, home);
    && n in db.objects
    && ValueAt(db, n) == ValueAt(orig, id)
    && db.objects[n].kind == orig.objects[id].kind && db.objects[n].body == orig.objects[id].body
    && db.objects[n].sku == orig.objects[id].sku && db.objects[n].deviceId == orig.objects[id].deviceId
    && if home == id.root || orig.objects[id].kind != State then db.objects[n].custom == orig.objects[id].custom
       else SettingsCarried(orig.objects[id].custom, db.objects[n].custom, Print(id))
  }

  /** The tree `f` lives on, object by object, below its old root or below the one other root `t`. */
  ghost predicate TreeLives(orig: Db, db: Db, f: string, t: string) {
    forall id | id in orig.objects && InTree(id, f) :: LivesBelow(orig, db, id, f) || LivesBelow(orig, db, id, t)
  }

  /** Where the tree `f` moves to, or itself. */
  function Home(moves: map<string, string>, f: string): string {
    if f in moves then moves[f] else f
  }

  /** An id of a tree is where it was or at the same place below the tree's home. */
  predicate FollowsTree(moves: map<string, string>, before: Id, after: Id) {
    after == before || (before.Below? && before.root in moves && after == Retree(before, moves[before.root]))
  }

  /** No alias is lost, one that names an object follows it, and none of those names a missing one. */
  ghost predicate AliasesFollow(orig: Db, db: Db, moves: map<string, string>) {
    && db.aliases.Keys == orig.aliases.Keys
    && (forall a | a in orig.aliases :: db.aliases[a].body == orig.aliases[a].body)
    && forall a, place | a in orig.aliases && 0 <= place < 3 ::
         var before, after := End(orig.aliases[a].target, place), End(db.aliases[a].target, place);
         && (before.Some? <==> after.Some?)
         && (before.Some? && before.value in orig.objects ==>
               after.value in db.objects && FollowsTree(moves, before.value, after.value))
         && (before.Some? && after != before ==>
               before.value.Below? && after.value.Below? && after.value.path == before.value.path)
  }

  /** With these homes no object, value or recording of a device tree is lost, and the aliases follow the trees. */
  ghost predicate PreservedUnder(orig: Db, db: Db, moves: map<string, string>) {
    && (forall f | IsTree(orig.objects, f) ::
          (Home(moves, f) == f || NothingIn(orig, Home(moves, f))) && TreeLives(orig, db, f, Home(moves, f)))
    && AliasesFollow(orig, db, moves)
  }

  ghost predicate Preserved(orig: Db, db: Db) {
    exists moves :: PreservedUnder(orig, db, moves)
  }

  // ----- the invariant gives conservation -----

  lemma MovedTreeLives(orig: Db, db: Db, f: string, t: string)
    requires TreeInv(orig, db, f, t) && f != t && IsTree(orig.objects, f) && Root(f) !in orig.states
    ensures TreeLives(orig, db, f, t)
  {
    var job := Origin(orig, f, t);
    forall id | id in orig.objects && InTree(id, f) && !LivesBelow(orig, db, id, f)
      ensures LivesBelow(orig, db, id, t)
    {
      var n := Retree(id, t);
      assert Retree(n, f) == id;
      assert id !in db.objects;
      assert Lost(orig, db, f);
      assert n in db.objects;
      assert id in job.Values() ==> n in db.states;
      assert ValueAt(db, n) == ValueAt(orig, id);
    }
  }

  lemma RestLives(orig: Db, db: Db, moves: map<string, string>, f: string)
    requires Inv(orig, db, moves) && IsTree(orig.objects, f) && f !in moves
    ensures TreeLives(orig, db, f, f)
  {
    forall id | id in orig.objects && InTree(id, f) ensures LivesBelow(orig, db, id, f) {
      assert !Concerned(id, moves);
      assert Retree(id, f) == id;
    }
  }

  lemma AliasStaysLive(orig: Db, db: Db, moves: map<string, string>, a: string, place: int)
    requires Inv(orig, db, moves) && a in orig.aliases && 0 <= place < 3
    ensures db.aliases[a].body == orig.aliases[a].body
    ensures var before, after := End(orig.aliases[a].target, place), End(db.aliases[a].target, place);
            && (before.Some? <==> after.Some?)
            && (before.Some? ==> FollowsTree(moves, before.value, after.value))
            && (before.Some? && before.value in orig.objects ==> after.value in db.objects)
  {
    assert AliasFollows(db, moves, orig.aliases[a], db.aliases[a]);
    var before, after := End(orig.aliases[a].target, place), End(db.aliases[a].target, place);
    assert EndFollows(db, moves, before, after);
    if before.Some? && before.value in orig.objects {
      if after == before {
        EndStands(orig, db, moves, a, place);
      } else {
        FollowedEndStands(orig, db, moves, a, place);
      }
    }
  }

  /** An end that did not move names an object that stands. */
  lemma EndStands(orig: Db, db: Db, moves: map<string, string>, a: string, place: int)
    requires Inv(orig, db, moves) && a in orig.aliases && 0 <= place < 3
    requires var end := End(orig.aliases[a].target, place);
             end.Some? && end.value in orig.objects && End(db.aliases[a].target, place) == end
    ensures End(orig.aliases[a].target, place).value in db.objects
  {
    hide WellFormed;
    var id := End(orig.aliases[a].target, place).value;
    if !Concerned(id, moves) {
    } else if id.root in moves {
      assert id !in db.objects ==> Lost(orig, db, id.root);
      assert InTree(id, id.root);
    }
  }

  /** An end that moved names a copy that stands. */
  lemma FollowedEndStands(orig: Db, db: Db, moves: map<string, string>, a: string, place: int)
    requires Inv(orig, db, moves) && a in orig.aliases && 0 <= place < 3
    requires var before, after := End(orig.aliases[a].target, place), End(db.aliases[a].target, place);
             before.Some? && before.value in orig.objects && EndFollows(db, moves, before, after) && after != before
    ensures End(db.aliases[a].target, place).value in db.objects
  {
    hide WellFormed, RestInv, AliasInv;
    var id := End(orig.aliases[a].target, place).value;
    assert TreeInv(orig, db, id.root, moves[id.root]);
    assert InTree(id, id.root);
  }

  /** What holds at every moment of any interrupted migration. */
  lemma InvPreserves(orig: Db, db: Db, moves: map<string, string>)
    requires Inv(orig, db, moves)
    ensures PreservedUnder(orig, db, moves)
  {
    forall f | IsTree(orig.objects, f)
      ensures (Home(moves, f) == f || NothingIn(orig, Home(moves, f))) && TreeLives(orig, db, f, Home(moves, f))
    {
      if f in moves {
        OtherRoots(orig, moves, f);
        MovedTreeLives(orig, db, f, moves[f]);
      } else {
        RestLives(orig, db, moves, f);
      }
    }
    forall a, place | a in orig.aliases && 0 <= place < 3 {
      AliasStaysLive(orig, db, moves, a, place);
    }
    assert forall a | a in orig.aliases :: db.aliases[a].body == orig.aliases[a].body by {
      forall a | a in orig.aliases ensures db.aliases[a].body == orig.aliases[a].body {
        AliasStaysLive(orig, db, moves, a, 0);
      }
    }
  }

  // ----- and every write keeps it -----

  lemma InvAtStart(orig: Db)
    requires WellFormed(orig)
    ensures Inv(orig, orig, map[])
  {
    assert forall a, place | a in orig.aliases && 0 <= place < 3 ::
      EndFollows(orig, map[], End(orig.aliases[a].target, place), End(orig.aliases[a].target, place));
  }

  /** The two stores agree on everything below `r`. */
  ghost predicate Agree(db: Db, after: Db, r: string) {
    && (forall id | InTree(id, r) && (id in db.objects || id in after.objects) ::
          id in db.objects && id in after.objects && after.objects[id] == db.objects[id])
    && (forall id | InTree(id, r) && (id in db.states || id in after.states) ::
          id in db.states && id in after.states && after.states[id] == db.states[id])
  }

  lemma TreeFrame(orig: Db, db: Db, after: Db, g: string, t: string)
    requires TreeInv(orig, db, g, t) && Agree(db, after, g) && Agree(db, after, t)
    ensures TreeInv(orig, after, g, t)
    ensures Lost(orig, after, g) ==> Lost(orig, db, g)
  {
  }

  lemma EndKeeps(db: Db, moves: map<string, string>, after: Db, later: map<string, string>, before: Option<Id>,
      now: Option<Id>)
    requires EndFollows(db, moves, before, now)
    requires forall f | f in moves ::
             f in later && later[f] == moves[f] && (Root(moves[f]) in db.objects ==> Root(moves[f]) in after.objects)
    ensures EndFollows(after, later, before, now)
  {
  }

  /** Aliases that were not touched still follow. */
  lemma AliasFrame(orig: Db, db: Db, moves: map<string, string>, after: Db, later: map<string, string>)
    requires AliasInv(orig, db, moves) && after.aliases == db.aliases
    requires forall f | f in moves ::
             f in later && later[f] == moves[f] && (Root(moves[f]) in db.objects ==> Root(moves[f]) in after.objects)
    requires forall f | f in later && Lost(orig, after, f) :: f in moves && Lost(orig, db, f)
    ensures AliasInv(orig, after, later)
  {
    forall a | a in db.aliases ensures AliasFollows(after, later, orig.aliases[a], db.aliases[a]) {
      assert AliasFollows(db, moves, orig.aliases[a], db.aliases[a]);
      forall place | 0 <= place < 3
        ensures EndFollows(after, later, End(orig.aliases[a].target, place), End(db.aliases[a].target, place))
      {
        EndKeeps(db, moves, after, later, End(orig.aliases[a].target, place), End(db.aliases[a].target, place));
      }
    }
  }

  /** The two stores agree on everything outside the given trees. */
  ghost predicate SameBeyond(db: Db, after: Db, roots: set<string>) {
    && (forall id: Id | !(id.Below? && id.root in roots) && (id in db.objects || id in after.objects) ::
          id in db.objects && id in after.objects && after.objects[id] == db.objects[id])
    && (forall id: Id | !(id.Below? && id.root in roots) && (id in db.states || id in after.states) ::
          id in db.states && id in after.states && after.states[id] == db.states[id])
  }

  /** The trees outside `roots` keep their invariant. */
  lemma OthersKeep(orig: Db, db: Db, moves: map<string, string>, after: Db, roots: set<string>)
    requires forall g | g in moves :: TreeInv(orig, db, g, moves[g])
    requires SameBeyond(db, after, roots)
    ensures forall g | g in moves && g !in roots && moves[g] !in roots :: TreeInv(orig, after, g, moves[g])
  {
    forall g | g in moves && g !in roots && moves[g] !in roots ensures TreeInv(orig, after, g, moves[g]) {
      TreeFrame(orig, db, after, g, moves[g]);
    }
  }

  /** Outside `roots` nothing is lost and no root comes or goes. */
  lemma OthersStand(orig: Db, db: Db, after: Db, roots: set<string>)
    requires SameBeyond(db, after, roots)
    ensures forall g | g !in roots :: Lost(orig, after, g) ==> Lost(orig, db, g)
    ensures forall t | t !in roots :: Root(t) in after.objects <==> Root(t) in db.objects
  {
  }

  lemma RestKeeps(orig: Db, db: Db, moves: map<string, string>, after: Db, later: map<string, string>,
      roots: set<string>)
    requires RestInv(orig, db, moves) && SameBeyond(db, after, roots)
    requires moves.Keys + Targets(moves) + roots <= later.Keys + Targets(later)
    ensures RestInv(orig, after, later)
  {
    assert forall id | !Concerned(id, later) :: !Concerned(id, moves) && !(id.Below? && id.root in roots);
  }

  lemma MovesGrow(orig: Db, moves: map<string, string>, f: string, t: string)
    requires MovesOk(orig, moves) && f !in moves
    requires IsTree(orig.objects, f) && !Marked(orig.objects, f)
    requires RootForm(t) && t != f && NothingIn(orig, t) && t !in Targets(moves)
    ensures MovesOk(orig, moves[f := t])
    ensures moves.Keys + Targets(moves) + {f, t} <= moves[f := t].Keys + Targets(moves[f := t])
    ensures forall g | g in moves :: g !in {f, t} && moves[g] !in {f, t}
  {
    hide RootForm, Identified, Marked;
    var later := moves[f := t];
    assert Root(f) in orig.objects;
    assert forall g | g in moves :: moves[g] in Targets(moves) && Root(g) in orig.objects;
    assert later[f] == t && forall g | g in moves :: later[g] == moves[g];
  }

  /** A tree no move touched is whole; with its journal it is an old tree with nothing at its target yet. */
  lemma FreshTree(orig: Db, db: Db, moves: map<string, string>, f: string, t: string)
    requires RestInv(orig, db, moves) && IsTree(orig.objects, f) && f !in moves.Keys + Targets(moves)
             && t !in moves.Keys + Targets(moves)
    requires !Marked(orig.objects, f) && !Marked(db.objects, f) && f != t && NothingIn(orig, t)
    ensures TreeInv(orig, db.(objects := Extended(db.objects, Root(f), Journal(t))), f, t)
    ensures !Lost(orig, db.(objects := Extended(db.objects, Root(f), Journal(t))), f)
    ensures SameBeyond(db, db.(objects := Extended(db.objects, Root(f), Journal(t))), {f, t})
  {
    assert forall id | InTree(id, t) || InTree(id, f) :: !Concerned(id, moves);
    hide IsTree, SameBeyond;
    var after := db.(objects := Extended(db.objects, Root(f), Journal(t)));
    WholeBefore(orig, db, moves, f, t);
    JournaledTree(orig, db, after, f, t);
    assert SameBeyond(db, after, {f, t}) by { OneRootChanges(db, after, f, t); }
  }

  /** The tree as it was, and nothing at its target. */
  lemma WholeBefore(orig: Db, db: Db, moves: map<string, string>, f: string, t: string)
    requires RestInv(orig, db, moves) && forall id | InTree(id, t) || InTree(id, f) :: !Concerned(id, moves)
    requires NothingIn(orig, t) && !Marked(db.objects, f) && f != t
    ensures NothingIn(db, t)
    ensures forall id | InTree(id, f) ::
            (id in db.objects <==> id in orig.objects) && (id in db.states <==> id in orig.states)
    ensures forall id | InTree(id, f) && id in db.objects :: db.objects[id] == orig.objects[id]
    ensures forall id | InTree(id, f) && id in db.states :: db.states[id] == orig.states[id]
  {
  }

  lemma JournaledTree(orig: Db, db: Db, after: Db, f: string, t: string)
    requires f != t && Root(f) in orig.objects && after == db.(objects := Extended(db.objects, Root(f), Journal(t)))
    requires NothingIn(db, t)
    requires forall id | InTree(id, f) ::
             (id in db.objects <==> id in orig.objects) && (id in db.states <==> id in orig.states)
    requires forall id | InTree(id, f) && id in db.objects :: db.objects[id] == orig.objects[id]
    requires forall id | InTree(id, f) && id in db.states :: db.states[id] == orig.states[id]
    ensures TreeInv(orig, after, f, t) && !Lost(orig, after, f)
  {
    assert InTree(Root(f), f) && InTree(Root(t), t);
  }

  lemma OneRootChanges(db: Db, after: Db, f: string, t: string)
    requires after == db.(objects := Extended(db.objects, Root(f), Journal(t)))
    ensures SameBeyond(db, after, {f, t})
  {
  }

  /** The journal: a tree that was not touched yet gets a target nothing holds. */
  lemma JournalKeeps(orig: Db, db: Db, moves: map<string, string>, f: string, t: string)
    requires Inv(orig, db, moves)
    requires IsTree(orig.objects, f) && f !in moves && !Marked(orig.objects, f) && !Marked(db.objects, f)
    requires RootForm(t) && t != f && NothingIn(orig, t) && t !in Targets(moves)
    ensures Inv(orig, db.(objects := Extended(db.objects, Root(f), Journal(t))), moves[f := t])
  {
    var after, later := db.(objects := Extended(db.objects, Root(f), Journal(t))), moves[f := t];
    NoOverlap(orig, moves, f, t);
    MovesGrow(orig, moves, f, t);
    FreshTree(orig, db, moves, f, t);
    assert RestInv(orig, after, later) by { RestKeeps(orig, db, moves, after, later, {f, t}); }
    assert forall g | g in moves :: g !in {f, t} && moves[g] !in {f, t};
    JournalTrees(orig, db, moves, after, later, f, t);
  }

  lemma JournalTrees(orig: Db, db: Db, moves: map<string, string>, after: Db, later: map<string, string>, f: string,
      t: string)
    requires later == moves[f := t]
    requires forall g | g in moves :: TreeInv(orig, db, g, moves[g]) && g !in {f, t} && moves[g] !in {f, t}
    requires AliasInv(orig, db, moves) && after.aliases == db.aliases
    requires SameBeyond(db, after, {f, t})
    requires TreeInv(orig, after, f, t) && !Lost(orig, after, f)
    ensures forall g | g in later :: TreeInv(orig, after, g, later[g])
    ensures AliasInv(orig, after, later)
  {
    hide TreeInv, Lost, AliasFollows, NoEnds;
    assert AliasInv(orig, after, later) by {
      OthersStand(orig, db, after, {f, t});
      AliasFrame(orig, db, moves, after, later);
    }
    OthersKeep(orig, db, moves, after, {f, t});
  }

  /** Nothing of the original store lies below a target, so a tree of it and a target are never the same. */
  lemma NoOverlap(orig: Db, moves: map<string, string>, f: string, t: string)
    requires MovesOk(orig, moves) && IsTree(orig.objects, f) && NothingIn(orig, t)
    ensures f !in Targets(moves) && t !in moves
  {
    OriginalIsNoTarget(orig, moves, f);
    assert forall g | g in moves :: Root(g) in orig.objects;
  }

  lemma OriginalIsNoTarget(orig: Db, moves: map<string, string>, f: string)
    requires MovesOk(orig, moves) && IsTree(orig.objects, f)
    ensures f !in Targets(moves)
  {
    assert Root(f) in orig.objects;
  }

  lemma OtherRoots(orig: Db, moves: map<string, string>, f: string)
    requires MovesOk(orig, moves) && f in moves
    ensures f != moves[f] && moves[f] !in moves && {f, moves[f]} <= moves.Keys + Targets(moves)
    ensures forall g | g in moves && g != f :: g !in {f, moves[f]} && moves[g] !in {f, moves[f]}
  {
    assert forall g | g in moves :: Root(g) in orig.objects && moves[g] in Targets(moves);
  }

  /** A step inside one moving tree: everything else keeps by itself. */
  lemma StepKeeps(orig: Db, db: Db, moves: map<string, string>, after: Db, f: string)
    requires Inv(orig, db, moves) && f in moves
    requires SameBeyond(db, after, {f, moves[f]})
    requires TreeInv(orig, after, f, moves[f]) && AliasInv(orig, after, moves)
    ensures Inv(orig, after, moves)
  {
    hide TreeInv, AliasInv, WellFormed, SameBeyond, RestInv, MovesOk;
    OtherRoots(orig, moves, f);
    RestKeeps(orig, db, moves, after, moves, {f, moves[f]});
    OthersKeep(orig, db, moves, after, {f, moves[f]});
  }

  /** Aliases while nothing more is lost and no target root goes. */
  lemma AliasStays(orig: Db, db: Db, moves: map<string, string>, after: Db)
    requires AliasInv(orig, db, moves) && after.aliases == db.aliases
    requires forall id | id in db.objects :: id in after.objects
    ensures AliasInv(orig, after, moves)
  {
    assert forall g | Lost(orig, after, g) :: Lost(orig, db, g);
    hide Lost, AliasFollows, NoEnds;
    AliasFrame(orig, db, moves, after, moves);
  }

  lemma MarkTree(orig: Db, db: Db, f: string, t: string)
    requires TreeInv(orig, db, f, t) && Root(t) in db.objects && f != t
    ensures TreeInv(orig, db.(objects := Extended(db.objects, Root(t), Mark)), f, t)
    ensures SameBeyond(db, db.(objects := Extended(db.objects, Root(t), Mark)), {f, t})
  {
    assert Retree(Root(t), f) == Root(f);
  }

  /** The mark on a copied root. */
  lemma MarkTargetKeeps(orig: Db, db: Db, moves: map<string, string>, f: string)
    requires Inv(orig, db, moves) && f in moves && Root(moves[f]) in db.objects
    ensures Inv(orig, db.(objects := Extended(db.objects, Root(moves[f]), Mark)), moves)
  {
    hide TreeInv, AliasInv, WellFormed, SameBeyond, RestInv, MovesOk;
    var after := db.(objects := Extended(db.objects, Root(moves[f]), Mark));
    OtherRoots(orig, moves, f);
    MarkTree(orig, db, f, moves[f]);
    AliasStays(orig, db, moves, after);
    StepKeeps(orig, db, moves, after, f);
  }

  lemma MarkRest(orig: Db, db: Db, moves: map<string, string>, r: string)
    requires RestInv(orig, db, moves) && MovesOk(orig, moves) && IsTree(orig.objects, r) && r !in moves
    ensures Root(r) in db.objects && r !in Targets(moves)
    ensures SameBeyond(db, db.(objects := Extended(db.objects, Root(r), Mark)), {r})
    ensures RestInv(orig, db.(objects := Extended(db.objects, Root(r), Mark)), moves)
  {
    OriginalIsNoTarget(orig, moves, r);
    assert !Concerned(Root(r), moves);
  }

  /** The mark on a tree that already stands under its id. */
  lemma MarkOwnKeeps(orig: Db, db: Db, moves: map<string, string>, r: string)
    requires Inv(orig, db, moves) && IsTree(orig.objects, r) && r !in moves
    ensures Inv(orig, db.(objects := Extended(db.objects, Root(r), Mark)), moves)
  {
    hide TreeInv, AliasInv, WellFormed, SameBeyond, RestInv, MovesOk, IsTree;
    var after := db.(objects := Extended(db.objects, Root(r), Mark));
    MarkRest(orig, db, moves, r);
    assert forall g | g in moves :: moves[g] in Targets(moves);
    OthersKeep(orig, db, moves, after, {r});
    AliasStays(orig, db, moves, after);
  }

  // ----- the copy -----

  /** The job a restart runs for a tree with a journal: a fresh copy, or, next to a marked root, a fill. */
  ghost predicate Resumes(orig: Db, db: Db, f: string, t: string, job: Job) {
    && job == Job(db, f, t, Marked(db.objects, t))
    && f != t && Root(f) in db.objects
    && TreeInv(orig, db, f, t)
    && IsTree(orig.objects, f) && orig.objects[Root(f)].movingTo == None && !Marked(orig.objects, f)
    && NothingIn(orig, t)
  }

  /** What a resumed copy writes is what the first one would have written. */
  lemma CopiesAgree(orig: Db, db: Db, f: string, t: string, job: Job, id: Id)
    requires Resumes(orig, db, f, t, job) && id in job.Sources()
    ensures id in Origin(orig, f, t).Sources()
    ensures job.Copy(id) == Origin(orig, f, t).Copy(id)
  {
  }

  lemma ArrivalsAgree(orig: Db, db: Db, f: string, t: string, job: Job, id: Id)
    requires Resumes(orig, db, f, t, job) && id in job.Sources()
    ensures id in Origin(orig, f, t).Sources()
    ensures var copy := Origin(orig, f, t).Copy(id);
            || job.Arrived(id) == copy
            || (id == Root(f) && Marked(db.objects, t) && job.Arrived(id) == db.objects[Root(t)] == Patched(copy, Mark))
  {
    CopiesAgree(orig, db, f, t, job, id);
    if job.Kept(id) {
      var n := Retree(id, t);
      assert InTree(n, t) && Retree(n, f) == id;
      assert db.objects[n].custom == job.Copy(id).custom;
    }
  }

  lemma ObjectsKeep(orig: Db, db: Db, f: string, t: string, job: Job, done: set<Id>, after: Db)
    requires Resumes(orig, db, f, t, job)
    requires done <= job.Sources() && job.CopyOrder(done) && after.objects == job.Objects(done)
    requires OldTree(orig, after, f, t)
    requires forall n | n in after.states && InTree(n, t) ::
               Retree(n, f) in Origin(orig, f, t).Values() && after.states[n] == orig.states[Retree(n, f)]
    ensures NewTree(orig, after, f, t)
  {
    forall n | n in after.objects && InTree(n, t)
      ensures Retree(n, f) in orig.objects
      ensures var copy := Origin(orig, f, t).Copy(Retree(n, f));
              after.objects[n] == copy || (n == Root(t) && after.objects[n] == Patched(copy, Mark))
    {
      if Retree(n, f) in done {
        ArrivalsAgree(orig, db, f, t, job, Retree(n, f));
      }
    }
    forall id | Root(t) in after.objects && id in orig.objects && InTree(id, f) ensures Retree(id, t) in after.objects {
      if Root(t) !in db.objects {
        assert Retree(Root(t), f) == Root(f);
        assert Root(f) in done && done == job.Sources();
        assert !Lost(orig, db, f);
        assert Retree(Retree(id, t), f) == id;
      }
    }
  }

  lemma OldKeeps(orig: Db, db: Db, f: string, t: string, job: Job, done: set<Id>, sdone: set<Id>, after: Db)
    requires Resumes(orig, db, f, t, job) && done <= job.Sources() && sdone <= job.Values()
    requires after.objects == job.Objects(done) && after.states == job.States(sdone)
    ensures OldTree(orig, after, f, t) && SameBeyond(db, after, {f, t})
    ensures forall n | n in after.states && InTree(n, t) ::
              Retree(n, f) in Origin(orig, f, t).Values() && after.states[n] == orig.states[Retree(n, f)]
    ensures Lost(orig, after, f) ==> Lost(orig, db, f)
    ensures forall n | n in db.objects :: n in after.objects
    ensures forall n | n in db.states :: n in after.states
  {
    SourceStays(job, done, sdone, after);
    ValuesArrive(orig, db, f, t, job, sdone, after);
    OldTreeFrame(orig, db, after, f, t);
  }

  /** A copy changes the target tree only, and takes nothing away. */
  lemma SourceStays(job: Job, done: set<Id>, sdone: set<Id>, after: Db)
    requires job.Legal() && done <= job.Sources() && sdone <= job.Values()
    requires after.objects == job.Objects(done) && after.states == job.States(sdone)
    ensures SameBeyond(job.base, after, {job.from, job.to}) && Agree(job.base, after, job.from)
    ensures forall n | n in job.base.objects :: n in after.objects
    ensures forall n | n in job.base.states :: n in after.states
  {
  }

  lemma OldTreeFrame(orig: Db, db: Db, after: Db, f: string, t: string)
    requires OldTree(orig, db, f, t) && Agree(db, after, f)
    ensures OldTree(orig, after, f, t) && (Lost(orig, after, f) ==> Lost(orig, db, f))
  {
  }

  lemma ValuesArrive(orig: Db, db: Db, f: string, t: string, job: Job, sdone: set<Id>, after: Db)
    requires Resumes(orig, db, f, t, job) && sdone <= job.Values() && after.states == job.States(sdone)
    ensures forall n | n in after.states && InTree(n, t) ::
              Retree(n, f) in Origin(orig, f, t).Values() && after.states[n] == orig.states[Retree(n, f)]
  {
  }

  /** Any point before the mark. */
  lemma PartKeeps(orig: Db, db: Db, f: string, t: string, job: Job, done: set<Id>, sdone: set<Id>, after: Db)
    requires Resumes(orig, db, f, t, job) && done <= job.Sources() && sdone <= job.Values() && job.CopyOrder(done)
    requires after.objects == job.Objects(done) && after.states == job.States(sdone)
    ensures TreeInv(orig, after, f, t) && SameBeyond(db, after, {f, t})
    ensures forall n | n in db.objects :: n in after.objects
    ensures Marked(db.objects, t) ==> Marked(after.objects, t)
  {
    OldKeeps(orig, db, f, t, job, done, sdone, after);
    ObjectsKeep(orig, db, f, t, job, done, after);
    if Marked(db.objects, t) && Root(f) in done {
      assert Retree(Root(f), t) == Root(t);
      assert job.Kept(Root(f));
      assert after.objects[Root(t)] == job.Arrived(Root(f));
      ArrivalsAgree(orig, db, f, t, job, Root(f));
    }
  }

  /** At the end the copy is complete: whatever the old tree had, even if a part of it was deleted before. */
  lemma WholeCopy(orig: Db, db: Db, f: string, t: string, job: Job, after: Db)
    requires Resumes(orig, db, f, t, job)
    requires after.objects == job.Objects(job.Sources()) && after.states == job.States(job.Values())
    ensures Root(t) in after.objects
    ensures forall id | id in Origin(orig, f, t).Values() :: Retree(id, t) in after.states
  {
    assert Retree(Root(f), t) == Root(t) && Root(f) in job.Sources();
    forall id | id in Origin(orig, f, t).Values() ensures Retree(id, t) in after.states {
      if id in db.states {
        assert id in job.Values() || Retree(id, t) in db.states;
      } else {
        assert Lost(orig, db, f);
      }
    }
  }

  /** An alias run leaves every end following its tree, and at its end none in the old tree. */
  lemma RetargetKeeps(orig: Db, db: Db, moves: map<string, string>, f: string, job: Job, done: set<string>, after: Db)
    requires AliasInv(orig, db, moves) && MovesOk(orig, moves) && f in moves
    requires job.base == db && job.from == f && job.to == moves[f]
    requires after.aliases == job.Aliases(done) && Root(moves[f]) in after.objects
    requires forall id | id in db.objects :: id in after.objects
    ensures AliasInv(orig, after, moves)
    ensures done == db.aliases.Keys ==> NoEnds(after.aliases, f)
  {
    var t := moves[f];
    OtherRoots(orig, moves, f);
    forall a | a in db.aliases
      ensures AliasFollows(after, moves, orig.aliases[a], after.aliases[a])
      ensures forall place | 0 <= place < 3 ::
                var was, now := End(db.aliases[a].target, place), End(after.aliases[a].target, place);
                && (now == was || (was.Some? && InTree(was.value, f) && now == Some(Retree(was.value, t))))
                && (a in done && now.Some? ==> !InTree(now.value, f))
    {
      assert AliasFollows(db, moves, orig.aliases[a], db.aliases[a]);
      RetargetedEnds(db.aliases[a], f, t);
      forall place | 0 <= place < 3
        ensures EndFollows(after, moves, End(orig.aliases[a].target, place), End(after.aliases[a].target, place))
      {
        assert EndFollows(db, moves, End(orig.aliases[a].target, place), End(db.aliases[a].target, place));
      }
    }
  }

  lemma RetargetedEnds(a: Alias, f: string, t: string)
    requires f != t
    ensures Retargeted(a, f, t).body == a.body
    ensures a.target.NoTarget? <==> Retargeted(a, f, t).target.NoTarget?
    ensures a.target.Plain? <==> Retargeted(a, f, t).target.Plain?
    ensures forall place | 0 <= place < 3 ::
              var was, now := End(a.target, place), End(Retargeted(a, f, t).target, place);
              now == if was.Some? && InTree(was.value, f) then Some(Retree(was.value, t)) else was
  {
  }

  /** The job of a tree whose target is known. */
  function Resumed(db: Db, f: string, t: string): Job {
    Job(db, f, t, Marked(db.objects, t))
  }

  lemma InvResumes(orig: Db, db: Db, moves: map<string, string>, f: string)
    requires Inv(orig, db, moves) && f in moves && Root(f) in db.objects
    ensures Resumes(orig, db, f, moves[f], Resumed(db, f, moves[f]))
  {
    hide TreeInv, RestInv, AliasInv;
    OtherRoots(orig, moves, f);
  }

  /** Objects and states on their way, aliases untouched. */
  lemma PartInv(orig: Db, db: Db, moves: map<string, string>, f: string, done: set<Id>, sdone: set<Id>, after: Db)
    requires Inv(orig, db, moves) && f in moves && Root(f) in db.objects
    requires var job := Resumed(db, f, moves[f]); done <= job.Sources() && sdone <= job.Values() && job.CopyOrder(done)
    requires var job := Resumed(db, f, moves[f]); after == Db(job.Objects(done), job.States(sdone), db.aliases)
    ensures Inv(orig, after, moves)
  {
    hide TreeInv, RestInv, AliasInv, SameBeyond, WellFormed, MovesOk;
    var job := Resumed(db, f, moves[f]);
    InvResumes(orig, db, moves, f);
    PartKeeps(orig, db, f, moves[f], job, done, sdone, after);
    AliasStays(orig, db, moves, after);
    StepKeeps(orig, db, moves, after, f);
  }

  /** Everything copied, aliases on their way. */
  lemma AliasesInv(orig: Db, db: Db, moves: map<string, string>, f: string, done: set<string>, after: Db)
    requires Inv(orig, db, moves) && f in moves && Root(f) in db.objects
    requires var job := Resumed(db, f, moves[f]);
             after == Db(job.Objects(job.Sources()), job.States(job.Values()), job.Aliases(done))
    ensures Inv(orig, after, moves)
    ensures Root(moves[f]) in after.objects
    ensures done == db.aliases.Keys ==> NoEnds(after.aliases, f)
    ensures forall id | id in Origin(orig, f, moves[f]).Values() :: Retree(id, moves[f]) in after.states
    ensures Marked(db.objects, moves[f]) ==> Marked(after.objects, moves[f])
  {
    hide TreeInv, RestInv, AliasInv, SameBeyond, WellFormed, MovesOk, NoEnds;
    var job := Resumed(db, f, moves[f]);
    InvResumes(orig, db, moves, f);
    PartKeeps(orig, db, f, moves[f], job, job.Sources(), job.Values(), after);
    WholeCopy(orig, db, f, moves[f], job, after);
    RetargetKeeps(orig, db, moves, f, job, done, after);
    StepKeeps(orig, db, moves, after, f);
  }

  /** Every point of a fresh or resumed copy keeps the invariant. */
  lemma CopyKeeps(orig: Db, db: Db, moves: map<string, string>, f: string, stage: Stage)
    requires Inv(orig, db, moves) && f in moves && Root(f) in db.objects
    requires Resumed(db, f, moves[f]).Reaches(stage)
    ensures Inv(orig, Resumed(db, f, moves[f]).At(stage), moves)
  {
    hide Inv;
    var job := Resumed(db, f, moves[f]);
    match stage
    case CopyingObjects(done) =>
      assert job.At(stage).states == job.States({});
      PartInv(orig, db, moves, f, done, {}, job.At(stage));
    case CopyingStates(done) =>
      PartInv(orig, db, moves, f, job.Sources(), done, job.At(stage));
    case CopyingAliases(done) =>
      AliasesInv(orig, db, moves, f, done, job.At(stage));
    case Skipping(_) =>
    case Finished =>
      var before := Db(job.Objects(job.Sources()), job.States(job.Values()), job.Aliases(db.aliases.Keys));
      AliasesInv(orig, db, moves, f, db.aliases.Keys, before);
      if !job.fill {
        MarkTargetKeeps(orig, before, moves, f);
      }
  }

  /** At the end of the copy nothing of the old tree is needed any more. */
  lemma CopyCompletes(orig: Db, db: Db, moves: map<string, string>, f: string)
    requires Inv(orig, db, moves) && f in moves && Root(f) in db.objects
    ensures var after := Resumed(db, f, moves[f]).Copied();
            Inv(orig, after, moves) && Complete(orig, after, f, moves[f]) && NoEnds(after.aliases, f)
  {
    hide Inv, NoEnds;
    var job := Resumed(db, f, moves[f]);
    var before := Db(job.Objects(job.Sources()), job.States(job.Values()), job.Aliases(db.aliases.Keys));
    CopyKeeps(orig, db, moves, f, Finished);
    AliasesInv(orig, db, moves, f, db.aliases.Keys, before);
  }

  // ----- the delete -----

  function Deleted(db: Db, gone: set<Id>): Db {
    db.(objects := db.objects - gone, states := db.states - gone)
  }

  /** Ids of one tree: deeper ones first, the root only with all the others. */
  ghost predicate DeleteOrder(db: Db, f: string, gone: set<Id>) {
    && gone <= TreeIds(db.objects, f) && (Root(f) in gone ==> gone == TreeIds(db.objects, f))
    && DeepFirst(TreeIds(db.objects, f), gone)
  }

  ghost predicate DeepFirst(ids: set<Id>, gone: set<Id>) {
    forall id, other | id in gone && other in ids - gone && id.Below? && other.Below? :: |other.path| <= |id.path|
  }

  lemma DeleteTree(orig: Db, db: Db, f: string, t: string, gone: set<Id>)
    requires TreeInv(orig, db, f, t) && Complete(orig, db, f, t) && DeleteOrder(db, f, gone) && f != t
    ensures TreeInv(orig, Deleted(db, gone), f, t) && SameBeyond(db, Deleted(db, gone), {f, t})
    ensures Complete(orig, Deleted(db, gone), f, t)
  {
  }

  lemma DeleteAliases(orig: Db, db: Db, moves: map<string, string>, f: string, gone: set<Id>)
    requires AliasInv(orig, db, moves) && MovesOk(orig, moves) && f in moves && NoEnds(db.aliases, f)
             && DeleteOrder(db, f, gone)
    ensures AliasInv(orig, Deleted(db, gone), moves)
  {
    var after := Deleted(db, gone);
    OtherRoots(orig, moves, f);
    forall a | a in db.aliases ensures AliasFollows(after, moves, orig.aliases[a], db.aliases[a]) {
      assert AliasFollows(db, moves, orig.aliases[a], db.aliases[a]);
      forall place | 0 <= place < 3
        ensures EndFollows(after, moves, End(orig.aliases[a].target, place), End(db.aliases[a].target, place))
      {
        assert EndFollows(db, moves, End(orig.aliases[a].target, place), End(db.aliases[a].target, place));
        assert forall g | g in moves :: moves[g] != f by {
          OriginalIsNoTarget(orig, moves, f);
          assert forall g | g in moves :: moves[g] in Targets(moves);
        }
      }
    }
    assert forall g | g in moves && g != f && Lost(orig, after, g) :: Lost(orig, db, g);
  }

  /** Every point of the delete keeps the invariant: the root, with its journal, goes last. */
  lemma DeleteKeeps(orig: Db, db: Db, moves: map<string, string>, f: string, gone: set<Id>)
    requires Inv(orig, db, moves) && f in moves && DeleteOrder(db, f, gone)
    requires Complete(orig, db, f, moves[f]) && NoEnds(db.aliases, f)
    ensures Inv(orig, Deleted(db, gone), moves)
  {
    hide TreeInv, RestInv, AliasInv, SameBeyond, WellFormed, MovesOk, Complete, NoEnds, DeleteOrder;
    OtherRoots(orig, moves, f);
    DeleteTree(orig, db, f, moves[f], gone);
    DeleteAliases(orig, db, moves, f, gone);
    StepKeeps(orig, db, moves, Deleted(db, gone), f);
  }
}
