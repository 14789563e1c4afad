/**
 * Moving one device tree to another root without a rename: copy every object, copy the values, retarget the aliases,
 * mark the copy. Every write can be the last one before a crash, or can fail.
 */
module DeviceMove {
  import opened Options
  import opened ObjectIds
  import DeviceId

  // ----- objects, states, aliases -----

  datatype Kind = Device | Channel | State | Other

  /** One adapter's settings on a datapoint; only records are recordings. */
  datatype Setting =
    | Scalar(value: int)
    | Recording(enabled: bool, aliasId: Option<string>, rest: int)

  type Custom = map<string, Setting>

  /** An object: the fields the move looks at, and `body` for everything it only carries. */
  datatype Object = Object(
    kind: Kind,
    custom: Option<Custom>,
    onlineId: Option<Id>,
    sku: Option<string>,
    deviceId: Option<string>,
    idScheme: Option<int>,
    movingTo: Option<string>,
    body: int)

  datatype Value = Null | Val(v: int)

  /** A state; `val` is missing where the database has an entry without a value. */
  datatype Datum = Datum(val: Option<Value>, ack: bool, ts: Option<int>, lc: Option<int>, q: Option<int>)

  /** `common.alias.id`: absent, one id, or a read/write pair. */
  datatype Target = NoTarget | Plain(id: Id) | Pair(read: Option<Id>, write: Option<Id>)

  datatype Alias = Alias(target: Target, body: int)

  /** Everything the move reads and writes. Alias objects live in their own namespace. */
  datatype Db = Db(objects: map<Id, Object>, states: map<Id, Datum>, aliases: map<string, Alias>)

  // ----- the pure parts -----

  predicate Records(s: Setting) {
    s.Recording? && s.enabled
  }

  predicate HasSeries(s: Setting) {
    s.Recording? && s.aliasId.Some? && s.aliasId.value != ""
  }

  /** A copied recording keeps its own series, or points at the id it was recorded under; nothing else changes. */
  ghost predicate SettingsCarried(before: Option<Custom>, after: Option<Custom>, oldId: string) {
    && (before.Some? <==> after.Some?)
    && (before.Some? ==>
          && before.value.Keys == after.value.Keys
          && forall k | k in before.value ::
               || (after.value[k] == before.value[k] && (Records(before.value[k]) ==> HasSeries(before.value[k])))
               || (Records(before.value[k]) && !HasSeries(before.value[k])
                   && after.value[k] == before.value[k].(aliasId := Some(oldId))))
  }

  function KeepHistoryUnder(custom: Option<Custom>, oldId: string): (kept: Option<Custom>)
    ensures SettingsCarried(custom, kept, oldId)
  {
    match custom
    case None => None
    case Some(c) =>
      Some(map k | k in c :: if Records(c[k]) && !HasSeries(c[k]) then c[k].(aliasId := Some(oldId)) else c[k])
  }

  /**
   * A series once named is never renamed: a second copy, also one back, leaves the settings as the first wrote them.
   */
  lemma HistoryIsNamedOnce(custom: Option<Custom>, oldId: string, laterId: string)
    requires oldId != ""
    ensures KeepHistoryUnder(KeepHistoryUnder(custom, oldId), laterId) == KeepHistoryUnder(custom, oldId)
    ensures HasSettings(KeepHistoryUnder(custom, oldId)) <==> HasSettings(custom)
    ensures SettingsCarried(custom, KeepHistoryUnder(KeepHistoryUnder(custom, oldId), laterId), oldId)
  {
    if custom.Some? {
      var once := KeepHistoryUnder(custom, oldId).value;
      var twice := KeepHistoryUnder(Some(once), laterId).value;
      assert forall k | k in once :: twice[k] == once[k];
      assert twice == once;
      assert custom.value != map[] ==> once.Keys != {};
    }
  }

  predicate HasSettings(custom: Option<Custom>) {
    custom.Some? && custom.value != map[]
  }

  /** The link of a device object to its reachability state follows the move. */
  function MovedLink(link: Option<Id>, from: string, to: string): Option<Id> {
    match link
    case None => None
    case Some(id) => if Moved(id, from, to).Some? then Moved(id, from, to) else link
  }

  /** One object as it is written under the new root. */
  function RewriteMoved(id: Id, o: Object, from: string, to: string): Object {
    var root := id == Root(from);
    o.(custom := if o.kind == State then KeepHistoryUnder(o.custom, Print(id)) else o.custom,
       movingTo := if root then None else o.movingTo,
       onlineId := if root then MovedLink(o.onlineId, from, to) else o.onlineId)
  }

  function MovedEnd(end: Option<Id>, from: string, to: string): Option<Id> {
    match end
    case None => None
    case Some(id) => Moved(id, from, to)
  }

  /** The alias target after the move, or nothing when it points at nothing that moves. */
  function MovedTarget(target: Target, from: string, to: string): Option<Target> {
    match target
    case NoTarget => None
    case Plain(id) => (match Moved(id, from, to) case None => None case Some(n) => Some(Plain(n)))
    case Pair(read, write) =>
      var r, w := MovedEnd(read, from, to), MovedEnd(write, from, to);
      if r.None? && w.None? then None
      else Some(Pair(if r.Some? then r else read, if w.Some? then w else write))
  }

  function Retargeted(a: Alias, from: string, to: string): Alias {
    match MovedTarget(a.target, from, to)
    case None => a
    case Some(target) => a.(target := target)
  }

  // ----- the store -----

  /** What a write meets: it goes through, the store refuses it, or the process dies before it. */
  datatype Outcome = Done | Fails | Crash

  /** What `extendObject` merges in. */
  datatype Patch = Journal(to: string) | Mark | Settings(custom: Option<Custom>)

  /** A write the move asks for. */
  datatype Write = SetObj(id: Id) | Extend(id: Id, patch: Patch) | SetVal(id: Id) | Retarget(name: string) | Del(id: Id)

  /** What the n-th write of a start meets, whatever it is. */
  type Plan = (nat, Write) -> Outcome

  /** A write that was tried, what it met, and the database it left. */
  datatype Point = Point(write: Write, outcome: Outcome, db: Db)

  const BARE := Object(Other, None, None, None, None, None, None, 0)

  function Patched(o: Object, p: Patch): Object {
    match p
    case Journal(to) => o.(movingTo := Some(to))
    case Mark => o.(idScheme := Some(DeviceId.ID_SCHEME))
    case Settings(custom) => o.(custom := custom)
  }

  function Extended(objects: map<Id, Object>, id: Id, p: Patch): map<Id, Object> {
    objects[id := Patched(if id in objects then objects[id] else BARE, p)]
  }

  /**
   * The object database. Each write meets what `plan` holds for it, and `trace` remembers every write of a start with
   * the database it left: the points a crash can leave behind.
   */
  class Store {
    var objects: map<Id, Object>
    var states: map<Id, Datum>
    var aliases: map<string, Alias>
    var plan: Plan
    var writes: nat
    ghost var trace: seq<Point>

    ghost function View(): Db
      reads this
    {
      Db(objects, states, aliases)
    }

    constructor (db: Db)
      ensures View() == db && trace == [] && writes == 0
    {
      objects, states, aliases := db.objects, db.states, db.aliases;
      plan, writes, trace := (_, _) => Done, 0, [];
    }

    /** A new start of the adapter: the database stays. */
    method StartOver(plan: Plan)
      modifies this
      ensures View() == old(View()) && this.plan == plan && trace == [] && writes == 0
    {
      this.plan, writes, trace := plan, 0, [];
    }

    /** What the next write meets. */
    method Next(w: Write) returns (o: Outcome)
      modifies this`writes
      ensures o == plan(old(writes), w) && writes == old(writes) + 1
    {
      o := plan(writes, w);
      writes := writes + 1;
    }

    /** What every write promises: it meets what is planned, and it goes through or changes nothing. */
    twostate predicate Wrote(o: Outcome, w: Write, db: Db)
      reads this
    {
      && plan == old(plan) && writes == old(writes) + 1 && o == plan(old(writes), w)
      && View() == (if o == Done then db else old(View()))
      && trace == old(trace) + [Point(w, o, View())]
    }

    method SetObject(id: Id, o: Object) returns (r: Outcome)
      modifies this
      ensures Wrote(r, SetObj(id), old(View()).(objects := old(objects)[id := o]))
    {
      r := Next(SetObj(id));
      if r == Done { objects := objects[id := o]; }
      trace := trace + [Point(SetObj(id), r, View())];
    }

    method ExtendObject(id: Id, p: Patch) returns (r: Outcome)
      modifies this
      ensures Wrote(r, Extend(id, p), old(View()).(objects := Extended(old(objects), id, p)))
    {
      r := Next(Extend(id, p));
      if r == Done { objects := Extended(objects, id, p); }
      trace := trace + [Point(Extend(id, p), r, View())];
    }

    method SetState(id: Id, s: Datum) returns (r: Outcome)
      modifies this
      ensures Wrote(r, SetVal(id), old(View()).(states := old(states)[id := s]))
    {
      r := Next(SetVal(id));
      if r == Done { states := states[id := s]; }
      trace := trace + [Point(SetVal(id), r, View())];
    }

    method SetAlias(name: string, a: Alias) returns (r: Outcome)
      modifies this
      ensures Wrote(r, Retarget(name), old(View()).(aliases := old(aliases)[name := a]))
    {
      r := Next(Retarget(name));
      if r == Done { aliases := aliases[name := a]; }
      trace := trace + [Point(Retarget(name), r, View())];
    }

    /** Deleting an object takes its value along. */
    method DelObject(id: Id) returns (r: Outcome)
      modifies this
      ensures Wrote(r, Del(id), old(View()).(objects := old(objects) - {id}, states := old(states) - {id}))
    {
      r := Next(Del(id));
      if r == Done { objects, states := objects - {id}, states - {id}; }
      trace := trace + [Point(Del(id), r, View())];
    }
  }

  /** What a run is watched for: which databases it passes and which writes it asks for, after those `before`. */
  datatype Watch = Watch(p: Db -> bool, kinds: Write -> bool, plan: Plan, start: Db, before: seq<Point>)

  /** What a write leaves: it changes what it names and nothing else, or nothing at all. */
  ghost predicate Applied(before: Db, p: Point) {
    if p.outcome != Done then p.db == before
    else
      match p.write
      case SetObj(id) => id in p.db.objects && p.db == before.(objects := before.objects[id := p.db.objects[id]])
      case Extend(id, patch) => p.db == before.(objects := Extended(before.objects, id, patch))
      case SetVal(id) => id in p.db.states && p.db == before.(states := before.states[id := p.db.states[id]])
      case Retarget(a) => a in p.db.aliases && p.db == before.(aliases := before.aliases[a := p.db.aliases[a]])
      case Del(id) => p.db == before.(objects := before.objects - {id}, states := before.states - {id})
  }

  /** The database before point `i`. */
  function DbBefore(start: Db, points: seq<Point>, i: nat): Db
    requires i <= |points|
  {
    if i == 0 then start else points[i - 1].db
  }

  /** The points lead from `start` to `end`, write by write: no change is left out. */
  ghost predicate Chained(start: Db, points: seq<Point>, end: Db) {
    && (forall i | 0 <= i < |points| :: Applied(DbBefore(start, points, i), points[i]))
    && end == DbBefore(start, points, |points|)
  }

  lemma ChainedOneMore(start: Db, points: seq<Point>, end: Db, p: Point)
    requires Chained(start, points, end) && Applied(end, p)
    ensures Chained(start, points + [p], p.db)
  {
    hide Applied;
    var more := points + [p];
    forall i | 0 <= i < |more| ensures Applied(DbBefore(start, more, i), more[i]) {
      assert i < |points| ==> more[i] == points[i] && DbBefore(start, more, i) == DbBefore(start, points, i);
    }
  }

  /** The points of a run that ended with `r`: only the last one can be no success. */
  ghost predicate Follows(plan: Plan, trace: seq<Point>, start: Db, mark: nat, end: Db, r: Outcome) {
    && mark <= |trace|
    && (forall i | 0 <= i < |trace| :: trace[i].outcome == plan(i, trace[i].write))
    && (forall i | mark <= i < |trace| :: trace[i].outcome == if i == |trace| - 1 then r else Done)
    && (|trace| == mark ==> r == Done)
    && Chained(start, trace[mark..], end)
  }

  lemma FollowsOneMore(plan: Plan, trace: seq<Point>, start: Db, mark: nat, end: Db, p: Point)
    requires Follows(plan, trace, start, mark, end, Done) && Applied(end, p) && p.outcome == plan(|trace|, p.write)
    ensures Follows(plan, trace + [p], start, mark, p.db, p.outcome)
  {
    hide Applied, Chained;
    ChainedOneMore(start, trace[mark..], end, p);
    assert (trace + [p])[mark..] == trace[mark..] + [p];
  }

  /** Since the mark only databases with `p` were passed and only writes of the kinds were tried. */
  ghost predicate Tracked(store: Store, watch: Watch, r: Outcome)
    reads store
  {
    && store.plan == watch.plan && store.writes == |store.trace| && watch.before <= store.trace
    && Follows(store.plan, store.trace, watch.start, |watch.before|, store.View(), r)
    && (forall i | |watch.before| <= i < |store.trace| ::
        watch.p(store.trace[i].db) && watch.kinds(store.trace[i].write))
  }

  // ----- every point of a copy -----

  predicate InTree(id: Id, root: string) {
    id.Below? && id.root == root
  }

  function TreeIds<T>(m: map<Id, T>, root: string): set<Id> {
    set id | id in m && InTree(id, root)
  }

  /** The same id below another root. */
  function Retree(id: Id, root: string): Id
    requires id.Below?
  {
    Below(root, id.path)
  }

  /** One copy: the database it starts from, the two roots, and whether it only fills a tree that is kept. */
  datatype Job = Job(base: Db, from: string, to: string, fill: bool) {

    predicate Legal() {
      from != to
    }

    /** A copy into a root that already carries the mark is taken as complete: nothing but the aliases is done. */
    predicate Skips() {
      !fill && Root(to) in base.objects && base.objects[Root(to)].idScheme == Some(DeviceId.ID_SCHEME)
    }

    function Sources(): set<Id> {
      TreeIds(base.objects, from)
    }

    function Copy(id: Id): Object
      requires id in Sources()
    {
      RewriteMoved(id, base.objects[id], from, to)
    }

    /** The target of `id` already stands in the tree that is kept. */
    predicate Kept(id: Id)
      requires id in Sources()
    {
      fill && Retree(id, to) in base.objects
    }

    /** The kept datapoint has no settings and takes those of the leftover. */
    predicate HandsSettings(id: Id)
      requires id in Sources() && Kept(id)
    {
      base.objects[id].kind == State && HasSettings(Copy(id).custom)
          && !HasSettings(base.objects[Retree(id, to)].custom)
    }

    /** What stands at the target of `id` once `id` was handled. */
    function Arrived(id: Id): Object
      requires id in Sources()
    {
      if !Kept(id) then Copy(id)
      else if HandsSettings(id) then Patched(base.objects[Retree(id, to)], Settings(Copy(id).custom))
      else base.objects[Retree(id, to)]
    }

    predicate HasValue(id: Id) {
      id in base.states && base.states[id].val.Some? && base.states[id].val.value != Null
    }

    /** The states that are written: those with a value, unless the kept tree has one. */
    function Values(): set<Id> {
      set id | id in base.states && InTree(id, from) && id.path != [] && base.states[id].val.Some?
          && !(fill && HasValue(Retree(id, to)))
    }

    function Objects(done: set<Id>): map<Id, Object>
      requires done <= Sources()
    {
      map n | n in base.objects.Keys + (set id | id in done :: Retree(id, to)) ::
        if InTree(n, to) && Retree(n, from) in done then Arrived(Retree(n, from)) else base.objects[n]
    }

    function States(done: set<Id>): map<Id, Datum>
      requires done <= Values()
    {
      map n | n in base.states.Keys + (set id | id in done :: Retree(id, to)) ::
        if InTree(n, to) && Retree(n, from) in done then base.states[Retree(n, from)] else base.states[n]
    }

    function Aliases(done: set<string>): map<string, Alias> {
      map a | a in base.aliases :: if a in done then Retargeted(base.aliases[a], from, to) else base.aliases[a]
    }

    /** The root of a fresh copy is written last. */
    function Late(): set<Id> {
      if Root(from) in Sources() && !Kept(Root(from)) then {Root(from)} else {}
    }

    /** The objects that were handled while `rest` still waits. */
    function Handled(rest: set<Id>): (done: set<Id>)
      ensures done <= Sources()
    {
      Sources() - rest - Late()
    }

    /** Shorter ids first, the root of a fresh copy last. */
    predicate CopyOrder(done: set<Id>)
      requires done <= Sources()
    {
      && (done !! Late() || done == Sources())
      && forall id, other | id in done && other in Sources() - done - Late() :: Length(id) <= Length(other)
    }

    predicate Reaches(stage: Stage) {
      match stage
      case CopyingObjects(done) => !Skips() && done <= Sources() && CopyOrder(done)
      case CopyingStates(done) => !Skips() && done <= Values()
      case CopyingAliases(done) => !Skips()
      case Skipping(done) => Skips()
      case Finished => !Skips()
    }

    /** The database at each stage. */
    function At(stage: Stage): Db
      requires Reaches(stage)
    {
      match stage
      case CopyingObjects(done) => Db(Objects(done), base.states, base.aliases)
      case CopyingStates(done) => Db(Objects(Sources()), States(done), base.aliases)
      case CopyingAliases(done) => Db(Objects(Sources()), States(Values()), Aliases(done))
      case Skipping(done) => base.(aliases := Aliases(done))
      case Finished =>
        Db(if fill then Objects(Sources()) else Extended(Objects(Sources()), Root(to), Mark),
           States(Values()), Aliases(base.aliases.Keys))
    }

    /** The database at the end of the copy. */
    function Copied(): Db {
      if Skips() then At(Skipping(base.aliases.Keys)) else At(Finished)
    }
  }

  /** How far a copy is. */
  datatype Stage =
    | CopyingObjects(done: set<Id>)
    | CopyingStates(done: set<Id>)
    | CopyingAliases(aliases: set<string>)
    | Skipping(aliases: set<string>)
    | Finished

  /** `p` covers every point of the job. */
  ghost predicate Covers(p: Db -> bool, job: Job) {
    forall stage | job.Reaches(stage) :: p(job.At(stage))
  }

  /** The writes of a copy: into the new tree, and aliases. */
  predicate CopyWrite(w: Write, to: string) {
    match w
    case SetObj(id) => InTree(id, to)
    case Extend(id, patch) => InTree(id, to) && !patch.Journal?
    case SetVal(id) => InTree(id, to)
    case Retarget(_) => true
    case Del(_) => false
  }

  /** What did not go through was a write of the copy, and the plan says so. */
  ghost predicate CopyStopped(plan: Plan, to: string, r: Outcome) {
    r != Done ==> exists n: nat, w | CopyWrite(w, to) :: plan(n, w) == r
  }

  ghost predicate WatchesCopy(watch: Watch, to: string) {
    forall w | CopyWrite(w, to) :: watch.kinds(w)
  }

  lemma MinExists(s: set<Id>, key: Id -> int)
    requires s != {}
    ensures exists x :: x in s && forall y | y in s :: key(x) <= key(y)
  {
    var m := MinOf(s, key);
  }

  lemma MinOf(s: set<Id>, key: Id -> int) returns (m: Id)
    requires s != {}
    ensures m in s && forall y | y in s :: key(m) <= key(y)
  {
    var x :| x in s;
    m := x;
    if s - {x} != {} {
      var n := MinOf(s - {x}, key);
      m := if key(n) < key(x) then n else x;
    }
    forall y | y in s ensures key(m) <= key(y) {
      assert y == x || y in s - {x};
    }
  }

  function Length(id: Id): int {
    |Print(id)|
  }

  /** The next id of a copy: a shortest one, whatever the sort does with equals. */
  method Shortest(s: set<Id>) returns (id: Id)
    requires s != {}
    ensures id in s && forall o | o in s :: Length(id) <= Length(o)
  {
    MinExists(s, Length);
    id :| id in s && forall o | o in s :: Length(id) <= Length(o);
  }

  lemma NothingDone(job: Job)
    ensures job.Objects({}) == job.base.objects
    ensures job.States({}) == job.base.states
    ensures job.Aliases({}) == job.base.aliases
  {
  }

  lemma ObjectsStep(job: Job, done: set<Id>, id: Id)
    requires job.Legal() && done <= job.Sources() && id in job.Sources()
    ensures job.Objects(done + {id}) == job.Objects(done)[Retree(id, job.to) := job.Arrived(id)]
  {
    assert Retree(Retree(id, job.to), job.from) == id;
  }

  /** What a kept object is once its leftover was handled; no settings move, no change. */
  lemma KeptStep(job: Job, done: set<Id>, id: Id)
    requires job.Legal() && done <= job.Sources() && id in job.Sources() - done && job.Kept(id)
    ensures job.Objects(done + {id}) ==
            if job.HandsSettings(id) then Extended(job.Objects(done), Retree(id, job.to), Settings(job.Copy(id).custom))
            else job.Objects(done)
  {
    assert Retree(Retree(id, job.to), job.from) == id;
    ObjectsStep(job, done, id);
    assert job.Objects(done)[Retree(id, job.to)] == job.base.objects[Retree(id, job.to)];
  }

  lemma AliasesStep(job: Job, done: set<string>, a: string)
    requires a in job.base.aliases
    ensures var alias := job.base.aliases[a];
            job.Aliases(done + {a}) ==
            match MovedTarget(alias.target, job.from, job.to)
            case None => job.Aliases(done)
            case Some(target) => job.Aliases(done)[a := alias.(target := target)]
  {
  }

  lemma StatesStep(job: Job, done: set<Id>, id: Id)
    requires job.Legal() && done <= job.Values() && id in job.Values()
    ensures job.States(done + {id}) == job.States(done)[Retree(id, job.to) := job.base.states[id]]
  {
    assert Retree(Retree(id, job.to), job.from) == id;
  }

  // ----- what becomes of a value -----

  /** The id has a value that is not null. */
  predicate HasNonNull(states: map<Id, Datum>, id: Id) {
    id in states && states[id].val.Some? && states[id].val.value.Val?
  }

  /** The id has a value the copy can send; the state of a device object itself is not listed. */
  predicate Sends(states: map<Id, Datum>, id: Id) {
    id.Below? && id.path != [] && id in states && states[id].val.Some?
  }

  predicate SameAt<T(==)>(before: map<Id, T>, after: map<Id, T>, id: Id) {
    (id in after <==> id in before) && (id in before ==> after[id] == before[id])
  }

  /** A kept value stays; any other id below the target gets its source's datum when the source has a value. */
  ghost predicate ValueArrived(base: Db, from: string, fill: bool, states: map<Id, Datum>, id: Id)
    requires id.Below?
  {
    var source := Below(from, id.path);
    if (fill && HasNonNull(base.states, id)) || !Sends(base.states, source) then SameAt(base.states, states, id)
    else id in states && states[id] == base.states[source]
  }

  ghost predicate ValuesArrived(base: Db, from: string, to: string, fill: bool, states: map<Id, Datum>) {
    forall id | InTree(id, to) :: ValueArrived(base, from, fill, states, id)
  }

  lemma StatesAre(job: Job, done: set<Id>, id: Id)
    requires job.Legal() && done <= job.Values()
    ensures !InTree(id, job.to) ==> SameAt(job.base.states, job.States(done), id)
    ensures InTree(id, job.to) && Retree(id, job.from) !in done ==> SameAt(job.base.states, job.States(done), id)
    ensures InTree(id, job.to) && (Retree(id, job.from) in done || done == job.Values()) ==>
            ValueArrived(job.base, job.from, job.fill, job.States(done), id)
  {
    if InTree(id, job.to) { assert Retree(Retree(id, job.from), job.to) == id; }
  }

  lemma AllValuesArrive(job: Job)
    requires job.Legal()
    ensures ValuesArrived(job.base, job.from, job.to, job.fill, job.States(job.Values()))
    ensures forall id | !InTree(id, job.to) :: SameAt(job.base.states, job.States(job.Values()), id)
  {
    hide ValueArrived, Job.States;
    forall id
      ensures InTree(id, job.to) ==> ValueArrived(job.base, job.from, job.fill, job.States(job.Values()), id)
      ensures !InTree(id, job.to) ==> SameAt(job.base.states, job.States(job.Values()), id)
    {
      StatesAre(job, job.Values(), id);
    }
  }

  // The loops. `p` is any property of databases that holds at every stage of the job; each write is shown to keep it.

  ghost predicate ObjectStages(p: Db -> bool, job: Job, here: Db) {
    forall done {:trigger job.Objects(done)} | done <= job.Sources() && job.CopyOrder(done) ::
        p(here.(objects := job.Objects(done)))
  }

  ghost predicate StateStages(p: Db -> bool, job: Job, here: Db) {
    forall done {:trigger job.States(done)} | done <= job.Values() :: p(here.(states := job.States(done)))
  }

  ghost predicate AliasStages(p: Db -> bool, job: Job, here: Db) {
    forall done {:trigger job.Aliases(done)} :: p(here.(aliases := job.Aliases(done)))
  }

  method PutObject(store: Store, id: Id, o: Object, ghost watch: Watch) returns (r: Outcome)
    requires Tracked(store, watch, Done) && watch.kinds(SetObj(id))
    requires watch.p(store.View()) && watch.p(store.View().(objects := store.objects[id := o]))
    modifies store
    ensures Tracked(store, watch, r) && r == watch.plan(old(store.writes), SetObj(id))
    ensures store.View() == if r == Done then old(store.View()).(objects := old(store.objects)[id := o])
            else old(store.View())
  {
    hide Follows;
    ghost var trace, before := store.trace, store.View();
    r := store.SetObject(id, o);
    FollowsOneMore(store.plan, trace, watch.start, |watch.before|, before, Point(SetObj(id), r, store.View()));
  }

  method PutPatch(store: Store, id: Id, patch: Patch, ghost watch: Watch) returns (r: Outcome)
    requires Tracked(store, watch, Done) && watch.kinds(Extend(id, patch))
    requires watch.p(store.View()) && watch.p(store.View().(objects := Extended(store.objects, id, patch)))
    modifies store
    ensures Tracked(store, watch, r) && r == watch.plan(old(store.writes), Extend(id, patch))
    ensures store.View() ==
            if r == Done then old(store.View()).(objects := Extended(old(store.objects), id, patch))
                else old(store.View())
  {
    hide Follows;
    ghost var trace, before := store.trace, store.View();
    r := store.ExtendObject(id, patch);
    FollowsOneMore(store.plan, trace, watch.start, |watch.before|, before, Point(Extend(id, patch), r, store.View()));
  }

  method PutValue(store: Store, id: Id, v: Datum, ghost watch: Watch) returns (r: Outcome)
    requires Tracked(store, watch, Done) && watch.kinds(SetVal(id))
    requires watch.p(store.View()) && watch.p(store.View().(states := store.states[id := v]))
    modifies store
    ensures Tracked(store, watch, r) && r == watch.plan(old(store.writes), SetVal(id))
    ensures store.View() == if r == Done then old(store.View()).(states := old(store.states)[id := v])
            else old(store.View())
  {
    hide Follows;
    ghost var trace, before := store.trace, store.View();
    r := store.SetState(id, v);
    FollowsOneMore(store.plan, trace, watch.start, |watch.before|, before, Point(SetVal(id), r, store.View()));
  }

  /** One object: written under the new root, or, where the kept tree has it, at most its settings handed over. */
  method HandleObject(store: Store, job: Job, id: Id, ghost done: set<Id>, ghost watch: Watch)
    returns (r: Outcome)
    requires job.Legal() && done <= job.Sources() && id in job.Sources() - done
    requires store.View() == job.base.(objects := job.Objects(done)) && Tracked(store, watch, Done)
    requires watch.p(store.View()) && WatchesCopy(watch, job.to)
    requires watch.p(job.base.(objects := job.Objects(done + {id})))
    modifies store
    ensures Tracked(store, watch, r) && CopyStopped(watch.plan, job.to, r)
    ensures r == Done ==> store.View() == job.base.(objects := job.Objects(done + {id}))
  {
    hide Tracked;
    if !job.Kept(id) {
      ObjectsStep(job, done, id);
      r := PutObject(store, Retree(id, job.to), job.Copy(id), watch);
    } else {
      KeptStep(job, done, id);
      if job.HandsSettings(id) {
        r := PutPatch(store, Retree(id, job.to), Settings(job.Copy(id).custom), watch);
      } else {
        r := Done;
      }
    }
  }

  /** The objects: shallow first, the root of a fresh copy last. */
  method CopyObjects(store: Store, job: Job, ghost watch: Watch) returns (r: Outcome)
    requires job.Legal() && store.View() == job.base && Tracked(store, watch, Done)
    requires ObjectStages(watch.p, job, job.base) && WatchesCopy(watch, job.to)
    modifies store
    ensures Tracked(store, watch, r) && CopyStopped(watch.plan, job.to, r)
    ensures r == Done ==> store.View() == job.base.(objects := job.Objects(job.Sources()))
  {
    hide Tracked;
    var rest := job.Sources();
    var deviceObject := false;
    NothingDone(job);
    assert job.Handled(rest) == {};
    while rest != {}
      invariant rest <= job.Sources()
      invariant deviceObject ==> Root(job.from) in job.Late()
      invariant !deviceObject ==> job.Late() <= rest
      invariant forall id, other | id in job.Handled(rest) && other in rest :: Length(id) <= Length(other)
      invariant store.View() == job.base.(objects := job.Objects(job.Handled(rest)))
      invariant Tracked(store, watch, Done)
      decreases rest
    {
      var id := Shortest(rest);
      assert forall a, b | a in job.Handled(rest) + {id} && b in rest :: Length(a) <= Length(b);
      NextHandled(watch.p, job, rest, id);
      if id == Root(job.from) && !job.Kept(id) {
        deviceObject := true;
      } else {
        r := HandleObject(store, job, id, job.Handled(rest), watch);
        if r != Done { return; }
      }
      rest := rest - {id};
    }
    if deviceObject {
      LastHandled(watch.p, job);
      r := HandleObject(store, job, Root(job.from), job.Handled({}), watch);
    } else {
      assert job.Handled({}) == job.Sources();
      r := Done;
    }
  }

  lemma NextHandled(p: Db -> bool, job: Job, rest: set<Id>, id: Id)
    requires ObjectStages(p, job, job.base) && rest <= job.Sources() && id in rest
    requires forall a, b | a in job.Handled(rest) + {id} && b in rest :: Length(a) <= Length(b)
    ensures id in job.Late() <==> id == Root(job.from) && !job.Kept(id)
    ensures id in job.Late() ==> job.Handled(rest - {id}) == job.Handled(rest)
    ensures id !in job.Late() ==> id !in job.Handled(rest) && job.Handled(rest - {id}) == job.Handled(rest) + {id}
    ensures id !in job.Late() ==> p(job.base.(objects := job.Objects(job.Handled(rest) + {id})))
  {
    if id !in job.Late() {
      assert job.Handled(rest - {id}) == job.Handled(rest) + {id};
      assert job.CopyOrder(job.Handled(rest) + {id});
    }
  }

  lemma LastHandled(p: Db -> bool, job: Job)
    requires ObjectStages(p, job, job.base) && Root(job.from) in job.Late()
    ensures Root(job.from) in job.Sources() - job.Handled({})
    ensures job.Handled({}) + {Root(job.from)} == job.Sources()
    ensures p(job.base.(objects := job.Objects(job.Handled({}) + {Root(job.from)})))
  {
    assert job.Handled({}) + {Root(job.from)} == job.Sources();
  }

  method PutState(store: Store, job: Job, id: Id, ghost done: set<Id>, ghost here: Db, ghost watch: Watch)
    returns (r: Outcome)
    requires job.Legal() && done <= job.Values() && id in job.Values()
    requires store.View() == here.(states := job.States(done)) && Tracked(store, watch, Done)
    requires watch.p(store.View()) && WatchesCopy(watch, job.to)
    requires watch.p(here.(states := job.States(done + {id})))
    modifies store
    ensures Tracked(store, watch, r) && CopyStopped(watch.plan, job.to, r)
    ensures r == Done ==> store.View() == here.(states := job.States(done + {id}))
  {
    hide Tracked;
    StatesStep(job, done, id);
    r := PutValue(store, Retree(id, job.to), job.base.states[id], watch);
  }

  /** All values that are written stand among the states of the tree. */
  lemma ValuesListed(job: Job, rest: set<Id>)
    requires rest == set id | id in job.base.states && InTree(id, job.from) && id.path != []
    ensures job.Values() <= rest
  {
  }

  lemma NextValue(job: Job, rest: set<Id>, id: Id)
    requires rest <= job.base.states.Keys && id in rest && InTree(id, job.from) && id.path != []
    ensures id in job.Values() <==>
              job.base.states[id].val.Some? && !(job.fill && job.HasValue(Retree(id, job.to)))
    ensures job.Values() - (rest - {id}) ==
            if id in job.Values() then job.Values() - rest + {id} else job.Values() - rest
  {
  }

  /** The values, with their flags and time stamps. */
  method CopyStates(store: Store, job: Job, ghost watch: Watch) returns (r: Outcome)
    requires job.Legal() && store.View().states == job.base.states && Tracked(store, watch, Done)
    requires StateStages(watch.p, job, store.View()) && WatchesCopy(watch, job.to)
    modifies store
    ensures Tracked(store, watch, r) && CopyStopped(watch.plan, job.to, r)
    ensures r == Done ==> store.View() == old(store.View()).(states := job.States(job.Values()))
    ensures r == Done ==> ValuesArrived(job.base, job.from, job.to, job.fill, store.states)
  {
    hide Tracked, ValuesArrived, Job.States, Job.Values;
    AllValuesArrive(job);
    var states := job.base.states;
    var rest := set id | id in states && InTree(id, job.from) && id.path != [];
    ghost var done: set<Id> := {};
    ghost var here := store.View();
    NothingDone(job);
    ValuesListed(job, rest);
    while rest != {}
      invariant rest <= states.Keys && forall id | id in rest :: InTree(id, job.from) && id.path != []
      invariant done == job.Values() - rest
      invariant store.View() == here.(states := job.States(done))
      invariant Tracked(store, watch, Done)
      decreases rest
    {
      var id :| id in rest;
      NextValue(job, rest, id);
      if states[id].val.Some? && !(job.fill && job.HasValue(Retree(id, job.to))) {
        assert watch.p(here.(states := job.States(done + {id})));
        r := PutState(store, job, id, done, here, watch);
        if r != Done { return; }
        done := done + {id};
      }
      rest := rest - {id};
    }
    assert done == job.Values();
    r := Done;
  }

  method PutTarget(store: Store, a: string, alias: Alias, ghost watch: Watch) returns (r: Outcome)
    requires Tracked(store, watch, Done) && watch.kinds(Retarget(a))
    requires watch.p(store.View()) && watch.p(store.View().(aliases := store.aliases[a := alias]))
    modifies store
    ensures Tracked(store, watch, r) && r == watch.plan(old(store.writes), Retarget(a))
    ensures store.View() ==
            if r == Done then old(store.View()).(aliases := old(store.aliases)[a := alias]) else old(store.View())
  {
    hide Follows;
    ghost var trace, before := store.trace, store.View();
    r := store.SetAlias(a, alias);
    FollowsOneMore(store.plan, trace, watch.start, |watch.before|, before, Point(Retarget(a), r, store.View()));
  }

  method PutAlias(store: Store, job: Job, a: string, ghost done: set<string>, ghost here: Db, ghost watch: Watch)
    returns (r: Outcome)
    requires a in job.base.aliases
    requires store.View() == here.(aliases := job.Aliases(done)) && Tracked(store, watch, Done)
    requires watch.p(store.View()) && WatchesCopy(watch, job.to)
    requires watch.p(here.(aliases := job.Aliases(done + {a})))
    modifies store
    ensures Tracked(store, watch, r) && CopyStopped(watch.plan, job.to, r)
    ensures r == Done ==> store.View() == here.(aliases := job.Aliases(done + {a}))
  {
    hide Tracked;
    AliasesStep(job, done, a);
    var alias := job.base.aliases[a];
    var moved := MovedTarget(alias.target, job.from, job.to);
    if moved.Some? {
      r := PutTarget(store, a, alias.(target := moved.value), watch);
    } else {
      r := Done;
    }
  }

  /** Every alias whose target moves is written whole with its new target. */
  method RetargetAliases(store: Store, job: Job, ghost watch: Watch) returns (r: Outcome)
    requires store.View().aliases == job.base.aliases && Tracked(store, watch, Done)
    requires AliasStages(watch.p, job, store.View()) && WatchesCopy(watch, job.to)
    modifies store
    ensures Tracked(store, watch, r) && CopyStopped(watch.plan, job.to, r)
    ensures r == Done ==> store.View() == old(store.View()).(aliases := job.Aliases(job.base.aliases.Keys))
  {
    hide Tracked;
    var rest := job.base.aliases.Keys;
    ghost var done: set<string> := {};
    ghost var here := store.View();
    NothingDone(job);
    while rest != {}
      invariant rest <= job.base.aliases.Keys && done == job.base.aliases.Keys - rest
      invariant store.View() == here.(aliases := job.Aliases(done))
      invariant Tracked(store, watch, Done)
      decreases rest
    {
      var a :| a in rest;
      r := PutAlias(store, job, a, done, here, watch);
      if r != Done { return; }
      done := done + {a};
      rest := rest - {a};
    }
    assert done == job.base.aliases.Keys;
    r := Done;
  }

  lemma CoversStages(p: Db -> bool, job: Job)
    requires Covers(p, job)
    ensures job.Skips() ==> AliasStages(p, job, job.base)
    ensures !job.Skips() ==> ObjectStages(p, job, job.base)
    ensures !job.Skips() ==> StateStages(p, job, job.base.(objects := job.Objects(job.Sources())))
    ensures !job.Skips() ==>
            AliasStages(p, job, Db(job.Objects(job.Sources()), job.States(job.Values()), job.base.aliases))
  {
    if job.Skips() {
      forall done ensures p(job.base.(aliases := job.Aliases(done))) {
        assert job.Reaches(Skipping(done));
      }
    } else {
      forall done | done <= job.Sources() && job.CopyOrder(done) ensures p(job.base.(objects := job.Objects(done))) {
        assert job.Reaches(CopyingObjects(done));
      }
      forall done | done <= job.Values()
        ensures p(job.base.(objects := job.Objects(job.Sources())).(states := job.States(done)))
      {
        assert job.Reaches(CopyingStates(done));
      }
      forall done ensures p(Db(job.Objects(job.Sources()), job.States(job.Values()), job.Aliases(done))) {
        assert job.Reaches(CopyingAliases(done));
      }
    }
  }

  /**
   * The whole copy. Whatever write it dies at, the database it leaves is one of the job's points; when every write went
   * through, it is the job's result.
   */
  method CopyDeviceTree(store: Store, from: string, to: string, fill: bool, ghost watch: Watch)
    returns (r: Outcome)
    requires from != to && Tracked(store, watch, Done)
    requires Covers(watch.p, Job(store.View(), from, to, fill)) && WatchesCopy(watch, to)
    modifies store
    ensures Tracked(store, watch, r) && CopyStopped(watch.plan, to, r)
    ensures r == Done ==> store.View() == Job(old(store.View()), from, to, fill).Copied()
    ensures r == Done && !Job(old(store.View()), from, to, fill).Skips() ==>
              ValuesArrived(old(store.View()), from, to, fill, store.states)
  {
    hide Tracked, ValuesArrived;
    var job := Job(Db(store.objects, store.states, store.aliases), from, to, fill);
    CoversStages(watch.p, job);
    NothingDone(job);
    if !job.Skips() {
      r := CopyObjects(store, job, watch);
      if r != Done { return; }
      r := CopyStates(store, job, watch);
      if r != Done { return; }
    }
    r := RetargetAliases(store, job, watch);
    if r != Done || job.Skips() { return; }
    if !fill {
      assert job.Reaches(CopyingAliases(job.base.aliases.Keys)) && job.Reaches(Finished);
      assert watch.p(job.At(CopyingAliases(job.base.aliases.Keys))) && watch.p(job.At(Finished));
      r := PutPatch(store, Root(to), Mark, watch);
    }
  }
}
