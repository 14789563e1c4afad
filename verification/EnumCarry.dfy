/**
 * Rooms and functions of moved ids: read which enum lists which moved id, let the caller delete, then write every
 * affected enum once with the new ids.
 */
module EnumCarry {
  import opened Filters
  import opened ObjectIds

  /** The members of every enum; an enum that does not exist has no entry. */
  type Enums = map<string, seq<Id>>

  /** Per enum the moved members and where each goes. */
  type Plan = map<string, map<Id, seq<Id>>>

  // ----- the plan -----

  /** The members of one enum that move. */
  function MovesIn(members: seq<Id>, successors: Id -> seq<Id>): (moves: map<Id, seq<Id>>)
    ensures forall m :: m in moves <==> m in members && successors(m) != []
    ensures forall m | m in moves :: moves[m] == successors(m)
  {
    if members == [] then map[]
    else
      var rest := MovesIn(members[1..], successors);
      if successors(members[0]) != [] then rest[members[0] := successors(members[0])] else rest
  }

  ghost predicate IsPlan(enums: Enums, successors: Id -> seq<Id>, plan: Plan) {
    && (forall e :: e in plan <==> e in enums && MovesIn(enums[e], successors) != map[])
    && (forall e | e in plan :: plan[e] == MovesIn(enums[e], successors))
  }

  /** `carryPlan`: only enums holding a moved member, each member with its successors. */
  method CarryPlan(enums: Enums, successors: Id -> seq<Id>) returns (plan: Plan)
    ensures IsPlan(enums, successors, plan)
  {
    plan := map[];
    var rest := enums.Keys;
    while rest != {}
      invariant rest <= enums.Keys
      invariant forall e :: e in plan <==> e in enums && e !in rest && MovesIn(enums[e], successors) != map[]
      invariant forall e | e in plan :: plan[e] == MovesIn(enums[e], successors)
      decreases rest
    {
      var e :| e in rest;
      var members, i := enums[e], 0;
      var moves: map<Id, seq<Id>> := map[];
      while i < |members|
        invariant 0 <= i <= |members|
        invariant forall m :: m in moves <==> m in members[..i] && successors(m) != []
        invariant forall m | m in moves :: moves[m] == successors(m)
      {
        var next := successors(members[i]);
        assert members[..i + 1] == members[..i] + [members[i]];
        if |next| > 0 {
          moves := moves[members[i] := next];
        }
        i := i + 1;
      }
      assert members[..i] == members;
      assert moves == MovesIn(members, successors);
      if moves != map[] {
        plan := plan[e := moves];
      }
      rest := rest - {e};
    }
  }

  // ----- one enum written back -----

  function Without(members: seq<Id>, gone: set<Id>): seq<Id> {
    if members == [] then []
    else if members[0] in gone then Without(members[1..], gone)
    else [members[0]] + Without(members[1..], gone)
  }

  /** Add each id once. */
  function Added(members: seq<Id>, newIds: seq<Id>): seq<Id>
    decreases |newIds|
  {
    if newIds == [] then members
    else Added(if newIds[0] in members then members else members + [newIds[0]], newIds[1..])
  }

  /** The new ids of a plan entry: all its successors, each once, in some order. */
  ghost predicate NewIdsOf(moves: map<Id, seq<Id>>, newIds: seq<Id>) {
    && (forall id :: id in newIds <==> exists m :: m in moves && id in moves[m])
    && NoDuplicates(newIds)
  }

  ghost predicate NoDuplicates(s: seq<Id>) {
    forall i, j | 0 <= i < j < |s| :: s[i] != s[j]
  }

  method CollectNewIds(moves: map<Id, seq<Id>>) returns (newIds: seq<Id>)
    ensures NewIdsOf(moves, newIds)
  {
    newIds := [];
    var rest := moves.Keys;
    while rest != {}
      invariant rest <= moves.Keys && NoDuplicates(newIds)
      invariant forall id :: id in newIds <==> exists m :: m in moves && m !in rest && id in moves[m]
      decreases rest
    {
      var m :| m in rest;
      var i, before := 0, newIds;
      while i < |moves[m]|
        invariant 0 <= i <= |moves[m]| && NoDuplicates(newIds)
        invariant forall id :: id in newIds <==> id in before || id in moves[m][..i]
      {
        assert moves[m][..i + 1] == moves[m][..i] + [moves[m][i]];
        if moves[m][i] !in newIds {
          newIds := newIds + [moves[m][i]];
        }
        i := i + 1;
      }
      assert moves[m][..i] == moves[m];
      rest := rest - {m};
    }
  }

  lemma {:induction false} WithoutMembers(members: seq<Id>, gone: set<Id>)
    ensures forall m :: m in Without(members, gone) <==> m in members && m !in gone
    ensures NoDuplicates(members) ==> NoDuplicates(Without(members, gone))
  {
    if members != [] {
      WithoutMembers(members[1..], gone);
      assert NoDuplicates(members) ==> members[0] !in members[1..] && NoDuplicates(members[1..]);
    }
  }

  function Stays(gone: set<Id>): Id -> bool {
    m => m !in gone
  }

  /** What stays, in the order it had. */
  lemma {:induction false} WithoutIs(members: seq<Id>, gone: set<Id>) returns (from: seq<nat>)
    ensures IsFilter(members, Stays(gone), Without(members, gone), from)
  {
    hide IsFilter;
    if members == [] {
      from := [];
      NothingFiltered(Stays(gone));
    } else {
      from := WithoutIs(members[1..], gone);
      FilterFront(members, Stays(gone), Without(members[1..], gone), from);
      from := if members[0] in gone then Shifted(from) else [0] + Shifted(from);
    }
  }

  lemma {:induction false} AddedMembers(members: seq<Id>, newIds: seq<Id>)
    ensures forall m :: m in Added(members, newIds) <==> m in members || m in newIds
    ensures members <= Added(members, newIds)
    ensures NoDuplicates(members) ==> NoDuplicates(Added(members, newIds))
    decreases |newIds|
  {
    if newIds != [] {
      AddedMembers(if newIds[0] in members then members else members + [newIds[0]], newIds[1..]);
    }
  }

  /** Of an enum read again, what a carry keeps is in its old order, and what it adds comes behind, each id once. */
  lemma CarriedMembers(reread: seq<Id>, moves: map<Id, seq<Id>>, newIds: seq<Id>)
    requires NewIdsOf(moves, newIds)
    ensures var members := Added(Without(reread, moves.Keys), newIds);
            && (forall m | m in moves :: forall id | id in moves[m] :: id in members)
            && (forall m | m in moves && m !in newIds :: m !in members)
            && (forall m | m in reread && m !in moves :: m in members)
            && (forall m | m in members :: m in newIds || (m in reread && m !in moves))
            && Without(reread, moves.Keys) <= members
            && (NoDuplicates(reread) ==> NoDuplicates(members))
  {
    WithoutMembers(reread, moves.Keys);
    AddedMembers(Without(reread, moves.Keys), newIds);
  }

  // ----- the carry -----

  /** What the delete does to the enums: it may write any of them whole from a cache as stale as can be. */
  type Remover = Enums -> Enums

  /** An enum written by the carry. */
  ghost predicate Rewritten(moves: map<Id, seq<Id>>, reread: seq<Id>, members: seq<Id>) {
    exists newIds :: NewIdsOf(moves, newIds) && members == Added(Without(reread, moves.Keys), newIds)
  }

  /**
   * Read, delete, write. `remove` is any delete at all: whatever it leaves of an enum is what is read again. Every enum
   * of the plan that still exists then gets its members minus the moved ones plus all their successors; no other enum
   * is written.
   */
  method Carry(enums: Enums, successors: Id -> seq<Id>, remove: Remover) returns (after: Enums, plan: Plan)
    ensures IsPlan(enums, successors, plan)
    ensures after.Keys == remove(enums).Keys
    ensures forall e | e in after && e !in plan :: after[e] == remove(enums)[e]
    ensures forall e | e in after && e in plan :: Rewritten(plan[e], remove(enums)[e], after[e])
  {
    hide IsPlan, Rewritten;
    plan := CarryPlan(enums, successors);
    var reread := remove(enums);
    after := reread;
    var rest := plan.Keys;
    while rest != {}
      invariant rest <= plan.Keys && after.Keys == reread.Keys
      invariant forall e | e in after && (e !in plan || e in rest) :: after[e] == reread[e]
      invariant forall e | e in after && e in plan && e !in rest :: Rewritten(plan[e], reread[e], after[e])
      decreases rest
    {
      var e :| e in rest;
      rest := rest - {e};
      var newIds := CollectNewIds(plan[e]);
      if e in after {
        var members := Added(Without(after[e], plan[e].Keys), newIds);
        IsRewritten(plan[e], reread[e], newIds);
        after := after[e := members];
      }
    }
  }

  lemma IsRewritten(moves: map<Id, seq<Id>>, reread: seq<Id>, newIds: seq<Id>)
    requires NewIdsOf(moves, newIds)
    ensures Rewritten(moves, reread, Added(Without(reread, moves.Keys), newIds))
  {
  }

  /**
   * One enum after a carry, whatever the delete left of it: successors in and at the end, moved ids out, all else as
   * read again and in that order.
   */
  ghost predicate EnumCarried(before: seq<Id>, successors: Id -> seq<Id>, reread: seq<Id>, after: seq<Id>) {
    var moves := MovesIn(before, successors);
    if moves == map[] then after == reread
    else
      && (forall m, id | m in moves && id in successors(m) :: id in after)
      && (forall m | m in reread && m !in moves :: m in after)
      && (forall m | m in after :: (m in reread && m !in moves) || exists o :: o in moves && m in successors(o))
      && (NoDuplicates(reread) ==> NoDuplicates(after))
      && exists kept, from :: IsFilter(reread, Stays(moves.Keys), kept, from) && kept <= after
  }

  /** All enums: what the delete left is what stays, except in the enums of the plan. */
  ghost predicate CarriedOver(enums: Enums, successors: Id -> seq<Id>, reread: Enums, after: Enums) {
    && after.Keys == reread.Keys
    && forall e | e in after :: EnumCarried(if e in enums then enums[e] else [], successors, reread[e], after[e])
  }

  lemma RewrittenIsCarried(before: seq<Id>, successors: Id -> seq<Id>, reread: seq<Id>, after: seq<Id>)
    requires MovesIn(before, successors) != map[] && Rewritten(MovesIn(before, successors), reread, after)
    ensures EnumCarried(before, successors, reread, after)
  {
    var moves := MovesIn(before, successors);
    var newIds :| NewIdsOf(moves, newIds) && after == Added(Without(reread, moves.Keys), newIds);
    CarriedMembers(reread, moves, newIds);
    var from := WithoutIs(reread, moves.Keys);
    assert IsFilter(reread, Stays(moves.Keys), Without(reread, moves.Keys), from);
    hide IsFilter, NewIdsOf;
  }

  lemma CarryResult(enums: Enums, successors: Id -> seq<Id>, reread: Enums, after: Enums, plan: Plan)
    requires IsPlan(enums, successors, plan) && after.Keys == reread.Keys
    requires forall e | e in after && e !in plan :: after[e] == reread[e]
    requires forall e | e in after && e in plan :: Rewritten(plan[e], reread[e], after[e])
    ensures CarriedOver(enums, successors, reread, after)
  {
    hide Rewritten, NoDuplicates;
    forall e | e in after ensures EnumCarried(if e in enums then enums[e] else [], successors, reread[e], after[e]) {
      if e in plan {
        RewrittenIsCarried(enums[e], successors, reread[e], after[e]);
      }
    }
  }

  // ----- for a device tree -----

  function TreeSuccessors(from: string, to: string): Id -> seq<Id> {
    (id: Id) => if Moved(id, from, to).Some? then [Moved(id, from, to).value] else []
  }

  /**
   * Moving a tree: an enum that listed ids of the old tree lists the same ids of the new one, none of the old tree,
   * whatever the delete wrote in between, provided the delete put no old id into an enum that did not list it.
   */
  lemma TreeCarry(enums: Enums, reread: Enums, after: Enums, from: string, to: string, e: string)
    requires from != to && CarriedOver(enums, TreeSuccessors(from, to), reread, after)
    requires e in enums && e in after
    requires forall m | m in reread[e] && m.Below? && m.root == from :: m in enums[e]
    ensures forall m | m in enums[e] && m.Below? && m.root == from :: Below(to, m.path) in after[e]
    ensures forall m | m in after[e] :: !(m.Below? && m.root == from)
    ensures forall m | m in reread[e] && !(m.Below? && m.root == from) :: m in after[e]
  {
    var successors := TreeSuccessors(from, to);
    assert EnumCarried(enums[e], successors, reread[e], after[e]);
    forall m | m in enums[e] && m.Below? && m.root == from ensures Below(to, m.path) in after[e] {
      assert m in MovesIn(enums[e], successors) && Below(to, m.path) in successors(m);
    }
    forall m | m in enums[e] && m in MovesIn(enums[e], successors) ensures m.Below? && m.root == from {}
  }

  // ----- a carry that does not end -----

  /** Writes of a carry: the enums in `done` are written, the others are as the delete left them. */
  ghost predicate PartlyWritten(plan: Plan, reread: Enums, done: set<string>, after: Enums) {
    && after.Keys == reread.Keys && done <= plan.Keys * reread.Keys
    && (forall e | e in done :: Rewritten(plan[e], reread[e], after[e]))
    && forall e | e in after && e !in done :: after[e] == reread[e]
  }

  /** The same carry, with the process dying once so many enums were written. */
  method CarryAndDie(enums: Enums, successors: Id -> seq<Id>, remove: Remover, writes: nat)
    returns (after: Enums, ghost plan: Plan, ghost done: set<string>)
    ensures IsPlan(enums, successors, plan) && PartlyWritten(plan, remove(enums), done, after) && |done| <= writes
  {
    hide IsPlan, Rewritten;
    var planned := CarryPlan(enums, successors);
    plan, done := planned, {};
    after := remove(enums);
    ghost var reread := after;
    var rest, left := planned.Keys, writes;
    while rest != {} && left > 0
      invariant rest <= planned.Keys && done !! rest && |done| + left == writes
      invariant PartlyWritten(planned, reread, done, after)
      decreases rest
    {
      var e :| e in rest;
      rest := rest - {e};
      var newIds := CollectNewIds(planned[e]);
      if e in after {
        var members := Added(Without(after[e], planned[e].Keys), newIds);
        IsRewritten(planned[e], reread[e], newIds);
        after := after[e := members];
        done := done + {e};
        left := left - 1;
      }
    }
  }

  /** What a member moves to stays there. */
  ghost predicate Lands(successors: Id -> seq<Id>) {
    forall m, id | id in successors(m) :: successors(id) == []
  }

  /** A delete that leaves alone what does not move, and puts in nothing. */
  ghost predicate Spares(successors: Id -> seq<Id>, before: Enums, after: Enums) {
    && after.Keys == before.Keys
    && forall e, m | e in after ::
       (m in after[e] ==> m in before[e]) && (m in before[e] && successors(m) == [] ==> m in after[e])
  }

  /** A successor that is there, or comes with a member that is. */
  ghost predicate Found(members: seq<Id>, successors: Id -> seq<Id>, id: Id) {
    id in members || exists o :: o in members && id in successors(o)
  }

  ghost predicate HasAll(before: seq<Id>, successors: Id -> seq<Id>, after: seq<Id>) {
    forall m, id | m in before && id in successors(m) :: id in after
  }

  /** After a carry that ended, exactly the successors that could be found are there. */
  lemma FoundIsThere(before: Enums, successors: Id -> seq<Id>, reread: Enums, after: Enums, e: string, m: Id, id: Id)
    requires CarriedOver(before, successors, reread, after) && Lands(successors) && Spares(successors, before, reread)
    requires e in after && id in successors(m)
    ensures e in before && (id in after[e] <==> Found(before[e], successors, id))
  {
    assert EnumCarried(before[e], successors, reread[e], after[e]);
    assert successors(id) == [];
    var moves := MovesIn(before[e], successors);
    assert id !in moves;
    if o :| o in before[e] && id in successors(o) { assert o in moves; }
  }

  /** A written enum has all its successors, and another one is as the delete left it. */
  lemma WrittenHasAll(enums: Enums, successors: Id -> seq<Id>, plan: Plan, left: Enums, done: set<string>,
      after: Enums, e: string)
    requires IsPlan(enums, successors, plan) && PartlyWritten(plan, left, done, after) && e in enums && e in after
    ensures if e in done then HasAll(enums[e], successors, after[e]) else after[e] == left[e]
  {
    if e in done {
      RewrittenIsCarried(enums[e], successors, left[e], after[e]);
      assert forall m, id | m in enums[e] && id in successors(m) :: m in MovesIn(enums[e], successors);
    }
  }

  /**
   * A carry that died after its delete and the writes of `done`. Left so, an enum lists all the new ids exactly when it
   * was written or the delete left them there; carried again at the next start, exactly when it was written, or every
   * new id, or a moved member it comes with, is in what the first delete left.
   */
  lemma CarriedAgainIff(enums: Enums, successors: Id -> seq<Id>, plan: Plan, left: Enums, done: set<string>,
      died: Enums,
                        again: Enums, after: Enums, e: string)
    requires IsPlan(enums, successors, plan) && PartlyWritten(plan, left, done, died)
    requires Lands(successors) && Spares(successors, died, again) && CarriedOver(died, successors, again, after)
    requires e in enums && e in after
    ensures e in left
    ensures HasAll(enums[e], successors, died[e]) <==> e in done || HasAll(enums[e], successors, left[e])
    ensures HasAll(enums[e], successors, after[e]) <==>
              e in done || forall m, id | m in enums[e] && id in successors(m) :: Found(left[e], successors, id)
  {
    hide IsPlan, PartlyWritten, CarriedOver, Spares, Lands, Found;
    assert e in died && e in left by { SameEnums(successors, plan, left, done, died, again, after); }
    WrittenHasAll(enums, successors, plan, left, done, died, e);
    forall m, id | m in enums[e] && id in successors(m) ensures id in after[e] <==> Found(died[e], successors, id) {
      FoundIsThere(died, successors, again, after, e, m, id);
    }
    if e in done { PresentIsFound(enums[e], successors, died[e]); }
  }

  lemma SameEnums(successors: Id -> seq<Id>, plan: Plan, left: Enums, done: set<string>, died: Enums, again: Enums,
      after: Enums)
    requires PartlyWritten(plan, left, done, died) && Spares(successors, died, again)
             && CarriedOver(died, successors, again, after)
    ensures left.Keys == died.Keys == after.Keys
  {
    hide Rewritten, EnumCarried;
  }

  lemma PresentIsFound(before: seq<Id>, successors: Id -> seq<Id>, members: seq<Id>)
    requires HasAll(before, successors, members)
    ensures forall m, id | m in before && id in successors(m) :: Found(members, successors, id)
  {
  }

  /** Both starts of it, as they run: the first carry dies, the next one ends. */
  method CarryAfterDeath(enums: Enums, successors: Id -> seq<Id>, remove: Remover, removeAgain: Remover, writes: nat)
    returns (after: Enums, ghost left: Enums, ghost done: set<string>)
    requires Lands(successors) && forall x :: Spares(successors, x, removeAgain(x))
    ensures left == remove(enums) && after.Keys == left.Keys && |done| <= writes
    ensures forall e | e in enums && e in after ::
              HasAll(enums[e], successors, after[e]) <==>
                e in done || forall m, id | m in enums[e] && id in successors(m) :: Found(left[e], successors, id)
  {
    hide IsPlan, PartlyWritten, CarriedOver, Lands, Found, HasAll;
    var died: Enums;
    ghost var plan;
    died, plan, done := CarryAndDie(enums, successors, remove, writes);
    left := remove(enums);
    assert died.Keys == left.Keys by { WrittenKeys(plan, left, done, died); }
    var next;
    after, next := Carry(died, successors, removeAgain);
    CarryResult(died, successors, removeAgain(died), after, next);
    forall e | e in enums && e in after
      ensures HasAll(enums[e], successors, after[e]) <==>
                e in done || forall m, id | m in enums[e] && id in successors(m) :: Found(left[e], successors, id)
    {
      CarriedAgainIff(enums, successors, plan, left, done, died, removeAgain(died), after, e);
    }
  }

  lemma WrittenKeys(plan: Plan, reread: Enums, done: set<string>, after: Enums)
    requires PartlyWritten(plan, reread, done, after)
    ensures after.Keys == reread.Keys
  {
  }

  /** For a device tree: a new id is found exactly when the old or the new one is in what the delete left. */
  lemma TreeFound(members: seq<Id>, from: string, to: string, path: seq<string>)
    requires from != to
    ensures Lands(TreeSuccessors(from, to))
    ensures Found(members, TreeSuccessors(from, to), Below(to, path)) <==>
            Below(to, path) in members || Below(from, path) in members
  {
    if Below(from, path) in members { assert Below(to, path) in TreeSuccessors(from, to)(Below(from, path)); }
  }
}
