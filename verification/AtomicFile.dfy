/**
 * Writing a file so that a crash never leaves a torn one: a temporary file, a flush, a rename, one writer at a time.
 */
module AtomicFile {
  import opened Options

  /** What a file holds, and whether it is on the disk or only in the page cache. */
  datatype Content = Content(data: string, durable: bool)

  /** Where a write call stands between two awaits. */
  datatype Step = Queued | Writing | Syncing | Closing(ok: bool) | Renaming | Settled(ok: bool)

  /** A call, and the one before it in the chain whose end it waits for. */
  datatype Call = Call(data: string, previous: Option<nat>, step: Step)

  /**
   * The target and its temporary file; the entry of the chain map; the calls of this process in the order made; which
   * of them renamed, in turn; and, over all processes, what the target held durably and what was asked for.
   */
  datatype State = State(
    target: Content, tmp: Option<Content>, chain: Option<nat>, calls: seq<Call>, renamed: seq<nat>,
    held: set<string>, asked: set<string>
  )

  datatype Event =
    | Begin(data: string)
    | Open(k: nat, ok: bool)
    | WriteData(k: nat, written: nat, ok: bool)
    | Sync(k: nat, ok: bool)
    | Close(k: nat, ok: bool)
    | Rename(k: nat, ok: bool)
    | LeaveChain(k: nat)
    | Crash(target: string, tmp: Option<string>)

  predicate IsSettled(s: State, k: nat) {
    k < |s.calls| && s.calls[k].step.Settled?
  }

  predicate At(s: State, k: nat, step: Step) {
    k < |s.calls| && s.calls[k].step == step
  }

  /** After a crash the target is one of its durable contents, or anything while what it holds is not durable. */
  predicate Enabled(s: State, e: Event) {
    match e
    case Begin(_) => true
    case Open(k, _) => At(s, k, Queued) && (s.calls[k].previous.Some? ==> IsSettled(s, s.calls[k].previous.value))
    case WriteData(k, written, _) => At(s, k, Writing) && written <= |s.calls[k].data|
    case Sync(k, _) => At(s, k, Syncing)
    case Close(k, _) => k < |s.calls| && s.calls[k].step.Closing?
    case Rename(k, ok) => At(s, k, Renaming) && (ok ==> s.tmp.Some?)
    case LeaveChain(k) => IsSettled(s, k)
    case Crash(target, _) => target in s.held || !s.target.durable
  }

  function Moved(s: State, k: nat, step: Step): State
    requires k < |s.calls|
  {
    s.(calls := s.calls[k := s.calls[k].(step := step)])
  }

  function Next(s: State, e: Event): State
    requires Enabled(s, e)
  {
    match e
    case Begin(data) =>
      s.(calls := s.calls + [Call(data, s.chain, Queued)], chain := Some(|s.calls|), asked := s.asked + {data})
    case Open(k, ok) =>
      if ok then Moved(s, k, Writing).(tmp := Some(Content("", false))) else Moved(s, k, Settled(false))
    case WriteData(k, written, ok) =>
      if ok then Moved(s, k, Syncing).(tmp := Some(Content(s.calls[k].data, false)))
      else Moved(s, k, Closing(false)).(tmp := Some(Content(s.calls[k].data[..written], false)))
    case Sync(k, ok) =>
      if ok then Moved(s, k, Closing(true)).(tmp := if s.tmp.Some? then Some(s.tmp.value.(durable := true)) else None)
      else Moved(s, k, Closing(false))
    case Close(k, ok) =>
      Moved(s, k, if ok && s.calls[k].step.ok then Renaming else Settled(false))
    case Rename(k, ok) =>
      if ok then
        Moved(s, k, Settled(true)).(
          target := s.tmp.value, tmp := None, renamed := s.renamed + [k],
          held := if s.tmp.value.durable then s.held + {s.tmp.value.data} else s.held)
      else Moved(s, k, Settled(false))
    case LeaveChain(k) =>
      if s.chain == Some(k) then s.(chain := None) else s
    case Crash(target, tmp) =>
      State(Content(target, true), if tmp.Some? then Some(Content(tmp.value, false)) else None, None, [], [],
            s.held + {target}, s.asked)
  }

  function Start(initial: string): State {
    State(Content(initial, true), None, None, [], [], {initial}, {})
  }

  function Run(initial: string, events: seq<Event>): State {
    if events == [] then Start(initial)
    else
      var before, e := Run(initial, events[..|events| - 1]), events[|events| - 1];
      if Enabled(before, e) then Next(before, e) else before
  }

  /** The steps of the source between its awaits. */
  class FileWriter {
    var chain: Option<nat>
    var calls: seq<Call>
    var target: Content
    var tmp: Option<Content>
    ghost var renamed: seq<nat>
    ghost var held: set<string>
    ghost var asked: set<string>

    ghost function View(): State
      reads this
    {
      State(target, tmp, chain, calls, renamed, held, asked)
    }

    constructor (initial: string)
      ensures View() == Start(initial)
    {
      chain, calls, target, tmp := None, [], Content(initial, true), None;
      renamed, held, asked := [], {initial}, {};
    }

    method WriteFileAtomic(data: string)
      modifies this
      ensures calls == old(calls) + [Call(data, old(chain), Queued)] && chain == Some(|old(calls)|)
      ensures View() == Next(old(View()), Begin(data))
    {
      var previous := chain;
      chain := Some(|calls|);
      calls := calls + [Call(data, previous, Queued)];
      asked := asked + {data};
    }

    method OpenTmp(k: nat, ok: bool)
      requires Enabled(View(), Open(k, ok))
      modifies this
      ensures View() == Next(old(View()), Open(k, ok))
    {
      if ok { tmp := Some(Content("", false)); }
      calls := calls[k := calls[k].(step := if ok then Writing else Settled(false))];
    }

    method WriteTmp(k: nat, written: nat, ok: bool)
      requires Enabled(View(), WriteData(k, written, ok))
      modifies this
      ensures View() == Next(old(View()), WriteData(k, written, ok))
    {
      tmp := Some(Content(if ok then calls[k].data else calls[k].data[..written], false));
      calls := calls[k := calls[k].(step := if ok then Syncing else Closing(false))];
    }

    method SyncTmp(k: nat, ok: bool)
      requires Enabled(View(), Sync(k, ok))
      modifies this
      ensures View() == Next(old(View()), Sync(k, ok))
    {
      if ok && tmp.Some? { tmp := Some(tmp.value.(durable := true)); }
      calls := calls[k := calls[k].(step := Closing(ok))];
    }

    /** In the `finally` of the write: an earlier failure or one of the close itself skips the rename. */
    method CloseTmp(k: nat, ok: bool)
      requires Enabled(View(), Close(k, ok))
      modifies this
      ensures View() == Next(old(View()), Close(k, ok))
    {
      calls := calls[k := calls[k].(step := if ok && calls[k].step.ok then Renaming else Settled(false))];
    }

    method RenameTmp(k: nat, ok: bool)
      requires Enabled(View(), Rename(k, ok))
      modifies this
      ensures View() == Next(old(View()), Rename(k, ok))
    {
      if ok {
        target := tmp.value;
        tmp := None;
        renamed := renamed + [k];
        held := if target.durable then held + {target.data} else held;
      }
      calls := calls[k := calls[k].(step := Settled(ok))];
    }

    method LeaveTheChain(k: nat)
      requires Enabled(View(), LeaveChain(k))
      modifies this
      ensures View() == Next(old(View()), LeaveChain(k))
    {
      if chain == Some(k) { chain := None; }
    }
  }

  // ----- whole runs -----

  /** One writer at a time: whoever has started has seen every earlier call end. */
  ghost predicate InTurn(s: State) {
    && (forall j, k | 0 <= j < k < |s.calls| && !s.calls[k].step.Queued? :: s.calls[j].step.Settled?)
    && (forall k | 0 <= k < |s.calls| ::
          match s.calls[k].previous
          case Some(p) => p + 1 == k
          case None => forall j | 0 <= j < k :: s.calls[j].step.Settled?)
    && (match s.chain
        case Some(last) => last + 1 == |s.calls|
        case None => forall j | 0 <= j < |s.calls| :: s.calls[j].step.Settled?)
  }

  /** A writer finds its own data in the temporary file, complete once it may rename. */
  ghost predicate TmpIsOwn(s: State) {
    forall k | 0 <= k < |s.calls| ::
      && (s.calls[k].step.Syncing? ==> s.tmp.Some? && s.tmp.value.data == s.calls[k].data)
      && (s.calls[k].step == Renaming || s.calls[k].step == Closing(true) ==>
          s.tmp == Some(Content(s.calls[k].data, true)))
  }

  ghost predicate Whole(initial: string, s: State) {
    && s.target.durable && s.target.data in s.held
    && s.held <= {initial} + s.asked
    && (forall k | 0 <= k < |s.calls| :: s.calls[k].data in s.asked)
  }

  /** The renames came in call order, each of a call that then succeeded; the target is the last one's data. */
  ghost predicate InOrder(s: State) {
    && (forall i, j | 0 <= i < j < |s.renamed| :: s.renamed[i] < s.renamed[j])
    && (forall k: nat :: k in s.renamed <==> At(s, k, Settled(true)))
    && (s.renamed != [] ==> var last := s.renamed[|s.renamed| - 1];
        last < |s.calls| && s.target.data == s.calls[last].data)
  }

  /** A call that takes a step has only ended calls before it. */
  lemma EarlierEnded(s: State, k: nat)
    requires InTurn(s) && k < |s.calls|
    requires s.calls[k].step.Queued? && s.calls[k].previous.Some? ==> IsSettled(s, s.calls[k].previous.value)
    ensures forall j | 0 <= j < k :: s.calls[j].step.Settled?
  {
    if s.calls[k].step.Queued? && s.calls[k].previous.Some? {
      var p := s.calls[k].previous.value;
      assert forall j | 0 <= j < p :: s.calls[j].step.Settled?;
    }
  }

  lemma MovedInTurn(s: State, k: nat, step: Step, after: State)
    requires InTurn(s) && k < |s.calls| && !s.calls[k].step.Settled? && !step.Queued?
    requires forall j | 0 <= j < k :: s.calls[j].step.Settled?
    requires after.calls == Moved(s, k, step).calls && after.chain == s.chain
    ensures InTurn(after)
  {
  }

  lemma NextInTurn(s: State, e: Event)
    requires InTurn(s) && Enabled(s, e)
    ensures InTurn(Next(s, e))
  {
    var after := Next(s, e);
    if e.Begin? || e.LeaveChain? || e.Crash? {
    } else {
      EarlierEnded(s, e.k);
      hide InTurn;
      MovedInTurn(s, e.k, after.calls[e.k].step, after);
    }
  }

  lemma NextTmpIsOwn(s: State, e: Event)
    requires InTurn(s) && TmpIsOwn(s) && Enabled(s, e)
    ensures TmpIsOwn(Next(s, e))
  {
  }

  lemma NextWhole(initial: string, s: State, e: Event)
    requires TmpIsOwn(s) && Whole(initial, s) && Enabled(s, e)
    ensures Whole(initial, Next(s, e))
  {
  }

  lemma NextInOrder(s: State, e: Event)
    requires InTurn(s) && TmpIsOwn(s) && InOrder(s) && Enabled(s, e)
    ensures InOrder(Next(s, e))
  {
    hide InTurn, TmpIsOwn;
    var after := Next(s, e);
    if e.Rename? && e.ok {
      RenamesComeBefore(s, e.k);
      OwnDataIsRenamed(s, e.k);
      assert forall k: nat | k != e.k :: k in after.renamed <==> k in s.renamed;
      assert after.renamed[|s.renamed|] == e.k;
    } else if !e.Crash? {
      assert after.renamed == s.renamed && forall k: nat :: At(after, k, Settled(true)) <==> At(s, k, Settled(true));
    }
  }

  lemma RenamesComeBefore(s: State, k: nat)
    requires InTurn(s) && InOrder(s) && At(s, k, Renaming)
    ensures forall i | 0 <= i < |s.renamed| :: s.renamed[i] < k
  {
    forall i | 0 <= i < |s.renamed| ensures s.renamed[i] < k {
      assert s.renamed[i] in s.renamed;
    }
  }

  lemma OwnDataIsRenamed(s: State, k: nat)
    requires TmpIsOwn(s) && At(s, k, Renaming)
    ensures s.tmp == Some(Content(s.calls[k].data, true))
  {
  }

  /** Any interleaving of writers, with a crash between any two steps. */
  lemma {:induction false} EveryRunIsAtomic(initial: string, events: seq<Event>)
    ensures var s := Run(initial, events); InTurn(s) && TmpIsOwn(s) && Whole(initial, s) && InOrder(s)
    decreases |events|
  {
    hide InTurn, TmpIsOwn, Whole, InOrder, Next;
    if events == [] {
      StartIsAtomic(initial);
    } else {
      var before, e := Run(initial, events[..|events| - 1]), events[|events| - 1];
      EveryRunIsAtomic(initial, events[..|events| - 1]);
      if Enabled(before, e) {
        NextInTurn(before, e);
        NextTmpIsOwn(before, e);
        NextWhole(initial, before, e);
        NextInOrder(before, e);
      }
    }
  }

  lemma StartIsAtomic(initial: string)
    ensures var s := Start(initial); InTurn(s) && TmpIsOwn(s) && Whole(initial, s) && InOrder(s)
  {
  }

  /** The target is its first content or the complete data of one call made, before and after any crash. */
  lemma TargetIsWhole(initial: string, events: seq<Event>)
    ensures var s := Run(initial, events); s.target.data == initial || Begin(s.target.data) in events
    ensures forall target, tmp | Enabled(Run(initial, events), Crash(target, tmp)) ::
              target == initial || Begin(target) in events
  {
    EveryRunIsAtomic(initial, events);
    AskedWasBegun(initial, events);
  }

  lemma {:induction false} AskedWasBegun(initial: string, events: seq<Event>)
    ensures forall data | data in Run(initial, events).asked :: Begin(data) in events
    decreases |events|
  {
    if events != [] {
      AskedWasBegun(initial, events[..|events| - 1]);
      assert events == events[..|events| - 1] + [events[|events| - 1]];
    }
  }

  predicate Active(c: Call) {
    !c.step.Queued? && !c.step.Settled?
  }

  /** No two calls use the temporary file at once. */
  lemma OneWriter(initial: string, events: seq<Event>, j: nat, k: nat)
    requires var s := Run(initial, events); j < |s.calls| && k < |s.calls| && Active(s.calls[j]) && Active(s.calls[k])
    ensures j == k
  {
    EveryRunIsAtomic(initial, events);
  }

  /** No failure blocks the queue: the first call that has not ended can always take its next step. */
  lemma QueueMovesOn(initial: string, events: seq<Event>, k: nat)
    requires var s := Run(initial, events);
             && k < |s.calls| && !s.calls[k].step.Settled?
             && forall j | 0 <= j < k :: s.calls[j].step.Settled?
    ensures var s := Run(initial, events);
            || Enabled(s, Open(k, true)) || Enabled(s, WriteData(k, 0, true)) || Enabled(s, Sync(k, true))
            || Enabled(s, Close(k, true)) || Enabled(s, Rename(k, true))
  {
    EveryRunIsAtomic(initial, events);
  }

  // ----- what a write comes to -----

  /** A step of call `k` that the file system refuses. */
  predicate Refuses(e: Event, k: nat) {
    match e
    case Open(j, ok) => j == k && !ok
    case WriteData(j, _, ok) => j == k && !ok
    case Sync(j, ok) => j == k && !ok
    case Close(j, ok) => j == k && !ok
    case Rename(j, ok) => j == k && !ok
    case _ => false
  }

  /** Since the process began some step of its call `k` was refused. */
  predicate WasRefused(initial: string, events: seq<Event>, k: nat) {
    if events == [] then false
    else
      var rest, e := events[..|events| - 1], events[|events| - 1];
      if !Enabled(Run(initial, rest), e) then WasRefused(initial, rest, k)
      else !e.Crash? && (Refuses(e, k) || WasRefused(initial, rest, k))
  }

  /** In any run a call has failed, or is about to, exactly when one of its steps was refused: all others succeed. */
  lemma {:induction false} FailsIffRefused(initial: string, events: seq<Event>, k: nat)
    ensures var s := Run(initial, events);
            && (k < |s.calls| ==>
                (WasRefused(initial, events, k) <==> s.calls[k].step in {Settled(false), Closing(false)}))
            && (k >= |s.calls| ==> !WasRefused(initial, events, k))
    decreases |events|
  {
    if events != [] { FailsIffRefused(initial, events[..|events| - 1], k); }
  }

  lemma RunMore(initial: string, events: seq<Event>, e: Event)
    requires Enabled(Run(initial, events), e)
    ensures Run(initial, events + [e]) == Next(Run(initial, events), e)
  {
    assert (events + [e])[..|events|] == events;
  }

  /** `after` is `before` with call `k` done: its data in the target, and no other call touched. */
  ghost predicate Landed(before: State, k: nat, after: State)
    requires k < |before.calls|
  {
    && after.target == Content(before.calls[k].data, true)
    && |after.calls| == |before.calls| && after.calls[k].step == Settled(true)
    && (forall j | 0 <= j < |after.calls| && j != k :: after.calls[j] == before.calls[j])
    && after.tmp.None? && after.renamed == before.renamed + [k]
  }

  /** From any reachable state the first call in line, granted its five steps, puts its data into the target. */
  lemma WriteLands(initial: string, events: seq<Event>, k: nat)
    requires At(Run(initial, events), k, Queued)
    requires forall j | 0 <= j < k :: Run(initial, events).calls[j].step.Settled?
    ensures var before := Run(initial, events);
            var steps := [Open(k, true), WriteData(k, |before.calls[k].data|, true), Sync(k, true), Close(k, true),
                          Rename(k, true)];
            Landed(before, k, Run(initial, events + steps))
  {
    hide InTurn, TmpIsOwn, Whole, InOrder, Run, Enabled, Next, Landed;
    var s := Run(initial, events);
    EveryRunIsAtomic(initial, events);
    FirstMayOpen(s, k);
    FiveSteps(s, k);
    var size := |s.calls[k].data|;
    var e1, e2, e3, e4, e5 := Open(k, true), WriteData(k, size, true), Sync(k, true), Close(k, true), Rename(k, true);
    RunMore(initial, events, e1);
    RunMore(initial, events + [e1], e2);
    RunMore(initial, events + [e1] + [e2], e3);
    RunMore(initial, events + [e1] + [e2] + [e3], e4);
    RunMore(initial, events + [e1] + [e2] + [e3] + [e4], e5);
    assert events + [e1] + [e2] + [e3] + [e4] + [e5] == events + [e1, e2, e3, e4, e5];
  }

  lemma FiveSteps(s: State, k: nat)
    requires Enabled(s, Open(k, true))
    ensures var s1 := Next(s, Open(k, true));
            && Enabled(s1, WriteData(k, |s.calls[k].data|, true))
            && var s2 := Next(s1, WriteData(k, |s.calls[k].data|, true));
            && Enabled(s2, Sync(k, true))
            && var s3 := Next(s2, Sync(k, true));
            && Enabled(s3, Close(k, true))
            && var s4 := Next(s3, Close(k, true));
            && Enabled(s4, Rename(k, true))
            && Landed(s, k, Next(s4, Rename(k, true)))
  {
  }

  lemma FirstMayOpen(s: State, k: nat)
    requires InTurn(s) && At(s, k, Queued) && forall j | 0 <= j < k :: s.calls[j].step.Settled?
    ensures Enabled(s, Open(k, true))
  {
  }
}
