/** The background retry of the cloud connection: one timer, an auth stop that can be lifted, an unload that cannot. */
module CloudRetry {
  import opened Options
  import opened TimingConstants

  datatype Result = Loaded | AuthFailed | RateLimited(retryAfterMs: Number) | Transient

  function MaxOf(a: Number, b: int): Number {
    match a
    case Finite(n) => Finite(if n < b then b else n)
    case Infinite(positive) => if positive then a else Finite(b)
    case NaN => NaN
  }

  function PauseMs(retryAfterMs: Number): int {
    ClampTimerMs(MaxOf(retryAfterMs, MIN_RATE_LIMIT_RETRY_MS), MIN_RATE_LIMIT_RETRY_MS, MAX_RATE_LIMIT_RETRY_MS)
  }

  /**
   * Why the list of devices did not come: a 429 with its `Retry-After` in seconds, missing where the header is missing
   * or no run of digits, a rejected key, or anything else.
   */
  datatype ListFailure = TooMany(retryAfter: Option<nat>) | Rejected | Broken

  const DEFAULT_RETRY_AFTER_SECONDS := 60

  /** Seconds in milliseconds; `overflow` is the first number too large for the source's arithmetic. */
  function Milliseconds(seconds: nat, overflow: nat): Number {
    if 1000 * seconds < overflow then Finite(1000 * seconds) else Infinite(true)
  }

  function CloudListFailure(failure: ListFailure, overflow: nat): Result {
    match failure
    case TooMany(retryAfter) =>
      var seconds := if retryAfter.Some? then retryAfter.value else DEFAULT_RETRY_AFTER_SECONDS;
      RateLimited(Finite(ClampTimerMs(Milliseconds(seconds, overflow), 60000, MAX_RATE_LIMIT_RETRY_MS)))
    case Rejected => AuthFailed
    case Broken => Transient
  }

  /** What the loop does to its host. */
  datatype Act = Armed(ms: int) | LoadStarted | Restored

  /** The loop's fields, and of the host: its pending timers, the next handle, and the loads still running. */
  datatype State = State(
    retryTimer: Option<nat>, connected: bool, stopped: bool, disposed: bool,
    pending: set<nat>, nextHandle: nat, loading: nat, acts: seq<Act>
  )

  const START := State(None, false, false, false, {}, 0, 0, [])

  datatype Event =
    | SetConnected(ok: bool)
    | Dispose
    | NoteKeyAccepted
    | HandleResult(result: Result)
    | Fire(handle: nat)
    | LoadEnds(result: Result)

  predicate Enabled(s: State, e: Event) {
    match e
    case Fire(handle) => handle in s.pending
    case LoadEnds(_) => s.loading > 0
    case _ => true
  }

  function WithoutTimer(s: State): State {
    if s.retryTimer.None? then s else s.(retryTimer := None, pending := s.pending - {s.retryTimer.value})
  }

  function Scheduled(s: State, ms: int): State {
    if s.stopped || s.connected || s.retryTimer.Some? then s
    else
      s.(retryTimer := Some(s.nextHandle), pending := s.pending + {s.nextHandle}, nextHandle := s.nextHandle + 1,
         acts := s.acts + [Armed(ms)])
  }

  function Handled(s: State, result: Result): State {
    match result
    case Loaded => s
    case AuthFailed => WithoutTimer(s.(stopped := true))
    case RateLimited(retryAfterMs) => Scheduled(s, PauseMs(retryAfterMs))
    case Transient => Scheduled(s, TRANSIENT_RETRY_MS)
  }

  function Next(s: State, e: Event): State
    requires Enabled(s, e)
  {
    match e
    case SetConnected(ok) => if ok then WithoutTimer(s.(connected := true)) else s.(connected := false)
    case Dispose => WithoutTimer(s.(disposed := true, stopped := true))
    case NoteKeyAccepted => if s.disposed then s else s.(stopped := false)
    case HandleResult(result) => Handled(s, result)
    case Fire(handle) =>
      var fired := s.(retryTimer := None, pending := s.pending - {handle});
      if s.connected || s.stopped then fired
      else fired.(loading := s.loading + 1, acts := s.acts + [LoadStarted])
    case LoadEnds(result) =>
      var ended := s.(loading := s.loading - 1);
      if s.stopped then ended
      else if result.Loaded? then ended.(connected := true, acts := s.acts + [Restored])
      else Handled(ended, result)
  }

  class CloudRetryLoop {
    var retryTimer: Option<nat>
    var connected: bool
    var stopped: bool
    var disposed: bool
    var pending: set<nat>
    var nextHandle: nat
    var loading: nat
    ghost var acts: seq<Act>

    ghost function View(): State
      reads this
    {
      State(retryTimer, connected, stopped, disposed, pending, nextHandle, loading, acts)
    }

    constructor ()
      ensures View() == START
    {
      retryTimer, connected, stopped, disposed := None, false, false, false;
      pending, nextHandle, loading, acts := {}, 0, 0, [];
    }

    method ClearTimer()
      modifies this
      ensures View() == WithoutTimer(old(View()))
    {
      if retryTimer.Some? {
        pending := pending - {retryTimer.value};
        retryTimer := None;
      }
    }

    method SetConnectedTo(ok: bool)
      modifies this
      ensures View() == Next(old(View()), SetConnected(ok))
    {
      connected := ok;
      if ok { ClearTimer(); }
    }

    method DisposeLoop()
      modifies this
      ensures View() == Next(old(View()), Dispose)
    {
      disposed := true;
      stopped := true;
      ClearTimer();
    }

    method KeyAccepted()
      modifies this
      ensures View() == Next(old(View()), NoteKeyAccepted)
    {
      if !disposed { stopped := false; }
    }

    method Handle(result: Result)
      modifies this
      ensures View() == Handled(old(View()), result)
    {
      match result
      case Loaded =>
      case AuthFailed =>
        stopped := true;
        ClearTimer();
      case RateLimited(retryAfterMs) => Schedule(PauseMs(retryAfterMs));
      case Transient => Schedule(TRANSIENT_RETRY_MS);
    }

    method Schedule(ms: int)
      modifies this
      ensures View() == Scheduled(old(View()), ms)
    {
      if stopped || connected { return; }
      if retryTimer.Some? { return; }
      retryTimer := Some(nextHandle);
      pending := pending + {nextHandle};
      nextHandle := nextHandle + 1;
      acts := acts + [Armed(ms)];
    }

    /** The timer's callback up to the load. */
    method TimerFires(handle: nat)
      requires handle in pending
      modifies this
      ensures View() == Next(old(View()), Fire(handle))
    {
      pending := pending - {handle};
      retryTimer := None;
      if connected || stopped { return; }
      loading := loading + 1;
      acts := acts + [LoadStarted];
    }

    /** The attempt after its load. */
    method AfterLoad(result: Result)
      requires loading > 0
      modifies this
      ensures View() == Next(old(View()), LoadEnds(result))
    {
      loading := loading - 1;
      if stopped { return; }
      if result.Loaded? {
        connected := true;
        acts := acts + [Restored];
      } else {
        Handle(result);
      }
    }
  }

  // ----- whole runs -----

  function Run(events: seq<Event>): State {
    if events == [] then START
    else
      var before, e := Run(events[..|events| - 1]), events[|events| - 1];
      if Enabled(before, e) then Next(before, e) else before
  }

  /** The field names the one pending timer, and a stopped loop has none. */
  ghost predicate Valid(s: State) {
    && s.pending == (if s.retryTimer.Some? then {s.retryTimer.value} else {})
    && (s.retryTimer.Some? ==> s.retryTimer.value < s.nextHandle)
    && (s.stopped ==> s.retryTimer.None?)
    && (s.disposed ==> s.stopped)
    && (forall i | 0 <= i < |s.acts| && s.acts[i].Armed? ::
        5000 <= s.acts[i].ms <= 3600000)
  }

  lemma NextIsValid(s: State, e: Event)
    requires Valid(s) && Enabled(s, e)
    ensures Valid(Next(s, e))
  {
  }

  /** At most one timer is pending, none once the loop is stopped, and every pause lies between 5 s and an hour. */
  lemma {:induction false} AtMostOneTimer(events: seq<Event>)
    ensures Valid(Run(events)) && |Run(events).pending| <= 1
    decreases |events|
  {
    hide Next;
    if events != [] {
      var before, e := Run(events[..|events| - 1]), events[|events| - 1];
      AtMostOneTimer(events[..|events| - 1]);
      if Enabled(before, e) { NextIsValid(before, e); }
    }
  }

  function Armings(acts: seq<Act>): nat {
    if acts == [] then 0 else Armings(acts[..|acts| - 1]) + (if acts[|acts| - 1].Armed? then 1 else 0)
  }

  function Loads(acts: seq<Act>): nat {
    if acts == [] then 0 else Loads(acts[..|acts| - 1]) + (if acts[|acts| - 1].LoadStarted? then 1 else 0)
  }

  lemma OneMoreAct(acts: seq<Act>, act: Act)
    ensures Armings(acts + [act]) == Armings(acts) + (if act.Armed? then 1 else 0)
    ensures Loads(acts + [act]) == Loads(acts) + (if act.LoadStarted? then 1 else 0)
  {
    assert (acts + [act])[..|acts|] == acts;
  }

  /** One event starts a load only as the one pending timer of a loop that is still wanted. */
  lemma StepLoads(s: State, e: Event)
    requires Valid(s) && Enabled(s, e) && Loads(s.acts) + |s.pending| <= Armings(s.acts)
    ensures var after := Next(s, e);
            && Loads(after.acts) + |after.pending| <= Armings(after.acts)
            && s.acts <= after.acts && |after.acts| <= |s.acts| + 1
            && (Loads(after.acts) > Loads(s.acts) ==>
                  e.Fire? && s.pending == {e.handle} && after.pending == {} && !s.connected && !s.stopped)
  {
    hide Loads, Armings, PauseMs;
    var after := Next(s, e);
    if |after.acts| > |s.acts| {
      assert after.acts == s.acts + [after.acts[|s.acts|]];
      OneMoreAct(s.acts, after.acts[|s.acts|]);
    }
  }

  /** Up to each of its acts a run has started no more loads than it armed timers. */
  ghost predicate LoadsFollowTimers(acts: seq<Act>) {
    forall n | 0 <= n <= |acts| :: Loads(acts[..n]) <= Armings(acts[..n])
  }

  lemma {:induction false} RunLoads(events: seq<Event>)
    ensures var s := Run(events); Loads(s.acts) + |s.pending| <= Armings(s.acts) && LoadsFollowTimers(s.acts)
    decreases |events|
  {
    hide Next, Valid, LoadsFollowTimers;
    if events == [] {
      NothingDone();
    } else {
      var before, e := Run(events[..|events| - 1]), events[|events| - 1];
      RunLoads(events[..|events| - 1]);
      AtMostOneTimer(events[..|events| - 1]);
      if Enabled(before, e) {
        StepLoads(before, e);
        PrefixesFollow(before.acts, Next(before, e).acts);
      }
    }
  }

  lemma NothingDone()
    ensures LoadsFollowTimers([])
  {
  }

  /** The event at `m` started a load. */
  ghost predicate StartsLoad(events: seq<Event>, m: nat)
    requires m < |events|
  {
    Loads(Run(events[..m + 1]).acts) > Loads(Run(events[..m]).acts)
  }

  /**
   * In every run each load comes from a timer armed before it, and starts only from the one pending timer, while the
   * cloud is not connected and the loop not stopped.
   */
  lemma LoadsStartOnlyWhenWanted(events: seq<Event>)
    ensures LoadsFollowTimers(Run(events).acts)
    ensures forall m: nat | m < |events| && StartsLoad(events, m) ::
              var s := Run(events[..m]);
              events[m].Fire? && s.pending == {events[m].handle} && !s.connected && !s.stopped
  {
    hide Next, Valid, LoadsFollowTimers;
    RunLoads(events);
    forall m: nat | m < |events| && StartsLoad(events, m)
      ensures var s := Run(events[..m]);
              events[m].Fire? && s.pending == {events[m].handle} && !s.connected && !s.stopped
    {
      var s := Run(events[..m]);
      assert events[..m + 1][..m] == events[..m];
      RunLoads(events[..m]);
      AtMostOneTimer(events[..m]);
      if Enabled(s, events[m]) { StepLoads(s, events[m]); }
    }
  }

  lemma PrefixesFollow(acts: seq<Act>, more: seq<Act>)
    requires LoadsFollowTimers(acts) && acts <= more && |more| <= |acts| + 1 && Loads(more) <= Armings(more)
    ensures LoadsFollowTimers(more)
  {
    forall n | 0 <= n <= |more| ensures Loads(more[..n]) <= Armings(more[..n]) {
      if n <= |acts| { assert more[..n] == acts[..n]; } else { assert more[..n] == more; }
    }
  }

  /** After an unload nothing is armed, no load starts and nothing is restored, whatever still arrives. */
  lemma {:induction false} NothingAfterDispose(events: seq<Event>, m: nat)
    requires m <= |events| && Run(events[..m]).disposed
    ensures var s := Run(events); s.disposed && s.pending == {} && s.acts == Run(events[..m]).acts
    decreases |events|
  {
    AtMostOneTimer(events);
    if m == |events| {
      assert events[..m] == events;
    } else {
      var n := |events| - 1;
      assert events[..n][..m] == events[..m];
      NothingAfterDispose(events[..n], m);
      AtMostOneTimer(events[..n]);
    }
  }

  /** A failed attempt of a loop that is still wanted always leaves a timer to try again. */
  lemma FailureRearms(events: seq<Event>, result: Result)
    requires !result.Loaded? && !result.AuthFailed?
    ensures var s := Run(events); !s.connected && !s.stopped ==> |Handled(s, result).pending| == 1
  {
    AtMostOneTimer(events);
  }

  /** A key accepted after a rejection lets the loop arm again, except after an unload. */
  lemma AcceptedKeyLiftsTheStop(events: seq<Event>)
    ensures Next(Run(events), NoteKeyAccepted).stopped <==> Run(events).disposed
  {
    AtMostOneTimer(events);
  }

  /**
   * The pause after a rate-limited list: a minute where the server names no number of seconds, else the seconds it
   * names, moved between 5 s and an hour; a number too large to compute with counts as none.
   */
  lemma RateLimitPause(retryAfter: Option<nat>, overflow: nat)
    requires overflow > MAX_RATE_LIMIT_RETRY_MS
    ensures var failure := CloudListFailure(TooMany(retryAfter), overflow);
            && failure.RateLimited? && failure.retryAfterMs.Finite?
            && PauseMs(failure.retryAfterMs) ==
               match retryAfter
               case None => 60000
               case Some(seconds) =>
                 if 1000 * seconds >= overflow then 60000
                 else if seconds < 5 then 5000 else if seconds > 3600 then 3600000 else 1000 * seconds
  {
  }

  // ----- what each event does, in numbers -----

  lemma RunMore(events: seq<Event>, e: Event)
    requires Enabled(Run(events), e)
    ensures Run(events + [e]) == Next(Run(events), e)
  {
    assert (events + [e])[..|events|] == events;
  }

  /** The pause of a failure: five minutes, or what the answer names between 5 s and an hour, 5 s where that is none. */
  predicate Pauses(result: Result, ms: int) {
    match result
    case Transient => ms == 300000
    case RateLimited(Finite(n)) => ms == if n < 5000 then 5000 else if n > 3600000 then 3600000 else n
    case RateLimited(_) => ms == 5000
    case _ => false
  }

  /**
   * A failure, reported or of a load: a rejected key stops the loop; any other arms one timer with its pause, unless
   * one is pending or the loop is connected or stopped.
   */
  lemma FailureArms(events: seq<Event>, result: Result, e: Event)
    requires !result.Loaded? && (e == HandleResult(result) || e == LoadEnds(result)) && Enabled(Run(events), e)
    ensures var s, after := Run(events), Run(events + [e]);
            && after.connected == s.connected
            && if result.AuthFailed? then after.stopped && after.pending == {} && after.acts == s.acts
               else
                 && after.stopped == s.stopped
                 && if s.connected || s.stopped || s.pending != {} then
                      after.pending == s.pending && after.acts == s.acts
                    else
                      && |after.pending| == 1
                      && exists ms :: Pauses(result, ms) && after.acts == s.acts + [Armed(ms)]
  {
    hide PauseMs;
    RunMore(events, e);
    AtMostOneTimer(events);
    if !result.AuthFailed? { PauseIs(result); }
  }

  lemma PauseIs(result: Result)
    requires result.Transient? || result.RateLimited?
    ensures Pauses(result, if result.Transient? then TRANSIENT_RETRY_MS else PauseMs(result.retryAfterMs))
  {
  }

  /** The pending timer of a loop that is wanted loads when it fires, and a load that succeeds restores. */
  lemma TimerLoads(events: seq<Event>, handle: nat)
    requires var s := Run(events); handle in s.pending && !s.connected && !s.stopped
    ensures var s, fired := Run(events), Run(events + [Fire(handle)]);
            && fired.pending == {} && fired.loading == s.loading + 1 && fired.acts == s.acts + [LoadStarted]
            && var restored := Run(events + [Fire(handle)] + [LoadEnds(Loaded)]);
               restored.connected && restored.loading == s.loading && restored.acts == fired.acts + [Restored]
  {
    AtMostOneTimer(events);
    RunMore(events, Fire(handle));
    RunMore(events + [Fire(handle)], LoadEnds(Loaded));
  }

  /** A connection takes the timer away; a lost one arms nothing by itself. */
  lemma ConnectionClears(events: seq<Event>, ok: bool)
    ensures var s, after := Run(events), Run(events + [SetConnected(ok)]);
            && after.connected == ok && after.acts == s.acts && after.stopped == s.stopped
            && after.pending == if ok then {} else s.pending
  {
    AtMostOneTimer(events);
    RunMore(events, SetConnected(ok));
  }

  /** A stopped loop arms, loads and restores nothing until a key is accepted. */
  lemma {:induction false} StoppedStaysSilent(events: seq<Event>, m: nat)
    requires m <= |events| && Run(events[..m]).stopped && NoteKeyAccepted !in events[m..]
    ensures Run(events).stopped && Run(events).pending == {} && Run(events).acts == Run(events[..m]).acts
    decreases |events|
  {
    AtMostOneTimer(events);
    if m == |events| {
      assert events[..m] == events;
    } else {
      var n := |events| - 1;
      assert events[..n][..m] == events[..m] && events[m..] == events[..n][m..] + [events[n]];
      StoppedStaysSilent(events[..n], m);
      AtMostOneTimer(events[..n]);
    }
  }
}
