/** Sending a command again that never reached the server, unless a newer write to the same datapoint began. */
module SendBudgeted {
  import opened Options

  const COMMAND_RETRY_DELAYS_MS := [1000, 2000]
  const COMMAND_RETRY_WINDOW_MS := 10000

  /** Where a write stands between two awaits. */
  datatype Write =
    | Sending(startedAt: int, attempt: nat)
    | Pausing(startedAt: int, attempt: nat)
    | Sent(attempts: nat)
    | GaveUp(attempts: nat)

  /** What leaves the slot: an attempt handed to the limiter, its failure, and a pause before the next one. */
  datatype Trace =
    | Handed(seqNo: nat, attempt: nat, at: int)
    | Failed(seqNo: nat, attempt: nat, neverSent: bool, at: int)
    | Paused(seqNo: nat, attempt: nat, startedAt: int, at: int, pause: nat)

  /** One slot: a device's datapoint. Write `k` of `writes` has the sequence number `k + 1`. */
  datatype Slot = Slot(sendSeq: nat, writes: seq<Write>, log: seq<Trace>)

  datatype Event =
    | Begin(now: int)
    | Succeeds(k: nat, now: int)
    | Fails(k: nat, neverSent: bool, now: int)
    | PauseOver(k: nat, now: int)

  /** The event can happen: the write waits for it. */
  predicate Enabled(s: Slot, e: Event) {
    match e
    case Begin(_) => true
    case Succeeds(k, _) => k < |s.writes| && s.writes[k].Sending?
    case Fails(k, _, _) => k < |s.writes| && s.writes[k].Sending?
    case PauseOver(k, _) => k < |s.writes| && s.writes[k].Pausing?
  }

  /** The failed attempt of write `k` is to be repeated after a pause. */
  predicate Again(s: Slot, k: nat, neverSent: bool, now: int)
    requires k < |s.writes| && s.writes[k].Sending?
  {
    var w := s.writes[k];
    && neverSent
    && 1 <= w.attempt <= |COMMAND_RETRY_DELAYS_MS|
    && now - w.startedAt + COMMAND_RETRY_DELAYS_MS[w.attempt - 1] <= COMMAND_RETRY_WINDOW_MS
    && s.sendSeq == k + 1
  }

  function Next(s: Slot, e: Event): Slot
    requires Enabled(s, e)
  {
    match e
    case Begin(now) =>
      Slot(s.sendSeq + 1, s.writes + [Sending(now, 1)], s.log + [Handed(s.sendSeq + 1, 1, now)])
    case Succeeds(k, _) =>
      s.(writes := s.writes[k := Sent(s.writes[k].attempt)])
    case Fails(k, neverSent, now) =>
      var w := s.writes[k];
      var failed := s.log + [Failed(k + 1, w.attempt, neverSent, now)];
      if Again(s, k, neverSent, now) then
        s.(writes := s.writes[k := Pausing(w.startedAt, w.attempt)],
           log := failed + [Paused(k + 1, w.attempt, w.startedAt, now, COMMAND_RETRY_DELAYS_MS[w.attempt - 1])])
      else s.(writes := s.writes[k := GaveUp(w.attempt)], log := failed)
    case PauseOver(k, now) =>
      var w := s.writes[k];
      if s.sendSeq != k + 1 then s.(writes := s.writes[k := GaveUp(w.attempt)])
      else
        s.(writes := s.writes[k := Sending(w.startedAt, w.attempt + 1)],
           log := s.log + [Handed(k + 1, w.attempt + 1, now)])
  }

  const EMPTY := Slot(0, [], [])

  /** The slot after any events; one that no write waits for changes nothing. */
  function Run(events: seq<Event>): Slot {
    if events == [] then EMPTY
    else
      var before, e := Run(events[..|events| - 1]), events[|events| - 1];
      if Enabled(before, e) then Next(before, e) else before
  }

  /** The steps of the source between its awaits, over the map entry and the loop variables of each call. */
  class CommandSlot {
    var sendSeq: nat
    var writes: seq<Write>
    ghost var log: seq<Trace>

    ghost function View(): Slot
      reads this
    {
      Slot(sendSeq, writes, log)
    }

    constructor ()
      ensures View() == EMPTY
    {
      sendSeq, writes, log := 0, [], [];
    }

    method BeginWrite(now: int)
      modifies this
      ensures View() == Next(old(View()), Begin(now))
    {
      sendSeq := sendSeq + 1;
      writes := writes + [Sending(now, 1)];
      log := log + [Handed(sendSeq, 1, now)];
    }

    method AttemptSent(k: nat, now: int)
      requires Enabled(View(), Succeeds(k, now))
      modifies this
      ensures View() == Next(old(View()), Succeeds(k, now))
    {
      writes := writes[k := Sent(writes[k].attempt)];
    }

    method AttemptFailed(k: nat, neverSent: bool, now: int)
      requires Enabled(View(), Fails(k, neverSent, now))
      modifies this
      ensures View() == Next(old(View()), Fails(k, neverSent, now))
    {
      var w := writes[k];
      var pause := if 1 <= w.attempt <= |COMMAND_RETRY_DELAYS_MS| then Some(COMMAND_RETRY_DELAYS_MS[w.attempt - 1])
          else None;
      var again := neverSent && pause.Some? && now - w.startedAt + pause.value <= COMMAND_RETRY_WINDOW_MS
          && sendSeq == k + 1;
      log := log + [Failed(k + 1, w.attempt, neverSent, now)];
      if !again {
        writes := writes[k := GaveUp(w.attempt)];
      } else {
        writes := writes[k := Pausing(w.startedAt, w.attempt)];
        log := log + [Paused(k + 1, w.attempt, w.startedAt, now, pause.value)];
      }
    }

    method PauseEnded(k: nat, now: int)
      requires Enabled(View(), PauseOver(k, now))
      modifies this
      ensures View() == Next(old(View()), PauseOver(k, now))
    {
      var w := writes[k];
      if sendSeq != k + 1 {
        writes := writes[k := GaveUp(w.attempt)];
      } else {
        writes := writes[k := Sending(w.startedAt, w.attempt + 1)];
        log := log + [Handed(k + 1, w.attempt + 1, now)];
      }
    }
  }

  // ----- whole runs -----

  function Attempts(w: Write): nat {
    if w.Sending? || w.Pausing? then w.attempt else w.attempts
  }

  /** How often write `seqNo` was handed over. */
  function HandedOver(log: seq<Trace>, seqNo: nat): nat {
    if log == [] then 0
    else
      var last := log[|log| - 1];
      HandedOver(log[..|log| - 1], seqNo) + (if last.Handed? && last.seqNo == seqNo then 1 else 0)
  }

  ghost predicate FailedUnsent(log: seq<Trace>, seqNo: nat, attempt: nat) {
    exists j | 0 <= j < |log| ::
        log[j].Failed? && log[j].seqNo == seqNo && log[j].attempt == attempt && log[j].neverSent
  }

  /** Every write was handed over as often as it counts, and at most three times. */
  ghost predicate Counted(s: Slot) {
    && |s.writes| == s.sendSeq
    && (forall k | 0 <= k < |s.writes| :: HandedOver(s.log, k + 1) == Attempts(s.writes[k]) <= Most(s.writes[k]))
    && (forall k | 0 <= k < |s.writes| :: Attempts(s.writes[k]) >= 1)
  }

  function Most(w: Write): nat {
    if w.Pausing? then 2 else 3
  }

  /** What is handed over belongs to the newest write so far: never an older one after a newer one. */
  ghost predicate NewestOnly(s: Slot) {
    && (forall i | 0 <= i < |s.log| :: 1 <= s.log[i].seqNo <= s.sendSeq)
    && (forall i, j | 0 <= i < j < |s.log| && s.log[i].Handed? && s.log[j].Handed? :: s.log[i].seqNo <= s.log[j].seqNo)
  }

  /** A further attempt follows a failure of the one before it that never reached the server. */
  ghost predicate OnlyUnsentAgain(s: Slot) {
    && (forall k | 0 <= k < |s.writes| && s.writes[k].Pausing? :: FailedUnsent(s.log, k + 1, s.writes[k].attempt))
    && (forall i | 0 <= i < |s.log| && s.log[i].Handed? && s.log[i].attempt > 1 ::
          FailedUnsent(s.log[..i], s.log[i].seqNo, s.log[i].attempt - 1))
  }

  /** No pause ends later than 10 s after the first attempt; the first lasts 1 s, the second 2 s. */
  ghost predicate InWindow(s: Slot) {
    forall i | 0 <= i < |s.log| && s.log[i].Paused? ::
      && s.log[i].at + s.log[i].pause <= s.log[i].startedAt + 10000
      && 1 <= s.log[i].attempt <= 2 && s.log[i].pause == 1000 * s.log[i].attempt
  }

  /** The start a pause is measured from is the hand-over of the first attempt. */
  ghost predicate FromTheFirst(s: Slot) {
    && (forall k | 0 <= k < |s.writes| && (s.writes[k].Sending? || s.writes[k].Pausing?) ::
          Handed(k + 1, 1, s.writes[k].startedAt) in s.log)
    && (forall t | t in s.log && t.Paused? :: Handed(t.seqNo, 1, t.startedAt) in s.log)
  }

  lemma NextIsFromTheFirst(s: Slot, e: Event)
    requires FromTheFirst(s) && |s.writes| == s.sendSeq && Enabled(s, e)
    ensures FromTheFirst(Next(s, e))
  {
    assert forall t | t in s.log :: t in Next(s, e).log;
  }

  lemma HandedMore(log: seq<Trace>, t: Trace, seqNo: nat)
    ensures HandedOver(log + [t], seqNo) == HandedOver(log, seqNo) + (if t.Handed? && t.seqNo == seqNo then 1 else 0)
  {
    assert (log + [t])[..|log|] == log;
  }

  lemma {:induction false} NotYetHanded(log: seq<Trace>, seqNo: nat)
    requires forall i | 0 <= i < |log| :: log[i].seqNo < seqNo
    ensures HandedOver(log, seqNo) == 0
  {
    if log != [] { NotYetHanded(log[..|log| - 1], seqNo); }
  }

  lemma NextIsCounted(s: Slot, e: Event)
    requires Counted(s) && NewestOnly(s) && Enabled(s, e)
    ensures Counted(Next(s, e))
  {
    hide HandedOver;
    var after := Next(s, e);
    match e
    case Begin(now) =>
      NotYetHanded(s.log, s.sendSeq + 1);
      forall n: nat ensures HandedOver(after.log, n) == HandedOver(s.log, n) + (if n == s.sendSeq + 1 then 1 else 0) {
        HandedMore(s.log, Handed(s.sendSeq + 1, 1, now), n);
      }
    case Succeeds(_, _) =>
    case Fails(k, neverSent, now) =>
      var w := s.writes[k];
      var failed := Failed(k + 1, w.attempt, neverSent, now);
      forall n: nat ensures HandedOver(after.log, n) == HandedOver(s.log, n) {
        HandedMore(s.log, failed, n);
        if Again(s, k, neverSent, now) {
          HandedMore(s.log + [failed], after.log[|after.log| - 1], n);
        }
      }
    case PauseOver(k, now) =>
      forall n: nat ensures s.sendSeq == k + 1 ==>
          HandedOver(after.log, n) == HandedOver(s.log, n) + (if n == k + 1 then 1 else 0) {
        HandedMore(s.log, Handed(k + 1, s.writes[k].attempt + 1, now), n);
      }
  }

  lemma NextIsNewestOnly(s: Slot, e: Event)
    requires |s.writes| == s.sendSeq && NewestOnly(s) && Enabled(s, e)
    ensures NewestOnly(Next(s, e))
  {
  }

  lemma StillFailed(log: seq<Trace>, more: seq<Trace>, seqNo: nat, attempt: nat)
    requires FailedUnsent(log, seqNo, attempt)
    ensures FailedUnsent(log + more, seqNo, attempt)
  {
    var j :| 0 <= j < |log| && log[j].Failed? && log[j].seqNo == seqNo && log[j].attempt == attempt && log[j].neverSent;
    assert (log + more)[j] == log[j];
  }

  lemma NextIsOnlyUnsentAgain(s: Slot, e: Event)
    requires OnlyUnsentAgain(s) && Enabled(s, e)
    ensures OnlyUnsentAgain(Next(s, e))
  {
    hide FailedUnsent;
    var after := Next(s, e);
    var more := after.log[|s.log|..];
    assert after.log == s.log + more;
    if e.Fails? && Again(s, e.k, e.neverSent, e.now) {
      FailureIsSeen(s.log, e.k + 1, s.writes[e.k].attempt, e.now, more[1]);
      assert after.log == s.log + [Failed(e.k + 1, s.writes[e.k].attempt, true, e.now), more[1]];
    }
    forall k | 0 <= k < |s.writes| && s.writes[k].Pausing? ensures FailedUnsent(after.log, k + 1, s.writes[k].attempt) {
      StillFailed(s.log, more, k + 1, s.writes[k].attempt);
    }
    forall i | 0 <= i < |after.log| && after.log[i].Handed? && after.log[i].attempt > 1
      ensures FailedUnsent(after.log[..i], after.log[i].seqNo, after.log[i].attempt - 1)
    {
      if i < |s.log| { assert after.log[..i] == s.log[..i]; } else { assert after.log[..i] == s.log; }
    }
  }

  lemma FailureIsSeen(log: seq<Trace>, seqNo: nat, attempt: nat, at: int, next: Trace)
    ensures FailedUnsent(log + [Failed(seqNo, attempt, true, at), next], seqNo, attempt)
  {
    assert (log + [Failed(seqNo, attempt, true, at), next])[|log|].Failed?;
  }

  lemma NextIsInWindow(s: Slot, e: Event)
    requires InWindow(s) && Enabled(s, e)
    ensures InWindow(Next(s, e))
  {
  }

  /** In every interleaving of any number of writes to the slot. */
  lemma {:induction false} EveryRunIsSafe(events: seq<Event>)
    ensures var s := Run(events); Counted(s) && NewestOnly(s) && OnlyUnsentAgain(s) && InWindow(s) && FromTheFirst(s)
    decreases |events|
  {
    hide Counted, NewestOnly, OnlyUnsentAgain, InWindow, FromTheFirst, Next, Enabled;
    if events == [] {
      NothingSentYet();
    } else {
      var before, e := Run(events[..|events| - 1]), events[|events| - 1];
      EveryRunIsSafe(events[..|events| - 1]);
      if Enabled(before, e) {
        NextIsCounted(before, e);
        CountedHasAll(before);
        NextIsNewestOnly(before, e);
        NextIsOnlyUnsentAgain(before, e);
        NextIsInWindow(before, e);
        NextIsFromTheFirst(before, e);
      }
    }
  }

  lemma NothingSentYet()
    ensures Counted(EMPTY) && NewestOnly(EMPTY) && OnlyUnsentAgain(EMPTY) && InWindow(EMPTY) && FromTheFirst(EMPTY)
  {
  }

  lemma CountedHasAll(s: Slot)
    requires Counted(s)
    ensures |s.writes| == s.sendSeq
  {
  }

  /** Once a newer write has begun, nothing of an older one is handed over any more, whatever happens. */
  lemma {:induction false} SupersededStaysSilent(events: seq<Event>, m: nat, seqNo: nat)
    requires m <= |events| && seqNo < Run(events[..m]).sendSeq
    ensures HandedOver(Run(events).log, seqNo) == HandedOver(Run(events[..m]).log, seqNo)
    ensures Run(events).sendSeq >= Run(events[..m]).sendSeq
    decreases |events|
  {
    hide HandedOver;
    if m == |events| {
      assert events[..m] == events;
    } else {
      var n := |events| - 1;
      var before, e := Run(events[..n]), events[n];
      assert events[..n][..m] == events[..m];
      SupersededStaysSilent(events[..n], m, seqNo);
      if Enabled(before, e) {
        var log := Next(before, e).log;
        if |log| > |before.log| { HandedMore(before.log, log[|before.log|], seqNo); }
        if |log| > |before.log| + 1 { HandedMore(log[..|log| - 1], log[|log| - 1], seqNo); }
      }
    }
  }

  lemma RunMore(events: seq<Event>, e: Event)
    requires Enabled(Run(events), e)
    ensures Run(events + [e]) == Next(Run(events), e)
  {
    assert (events + [e])[..|events|] == events;
  }

  /**
   * Exactly when a failed attempt is repeated, and when it is, after its pause the write is handed over once more:
   * it never reached the server, it is the newest, it was the first or second attempt, and its pause of 1 s or 2 s ends
   * within 10 s of the first.
   */
  lemma RetriesIff(events: seq<Event>, k: nat, neverSent: bool, now: int, later: int)
    requires k < |Run(events).writes| && Run(events).writes[k].Sending?
    ensures var s := Run(events);
            var w := s.writes[k];
            var failed := Run(events + [Fails(k, neverSent, now)]);
            && w.attempt == HandedOver(s.log, k + 1) && Handed(k + 1, 1, w.startedAt) in s.log
            && if neverSent && k + 1 == |s.writes| && w.attempt <= 2
                  && now - w.startedAt + 1000 * w.attempt <= 10000 then
                 && failed.writes[k] == Pausing(w.startedAt, w.attempt)
                 && Enabled(failed, PauseOver(k, later))
                 && var again := Run(events + [Fails(k, neverSent, now)] + [PauseOver(k, later)]);
                    && again.log == failed.log + [Handed(k + 1, w.attempt + 1, later)]
                    && again.writes == s.writes[k := Sending(w.startedAt, w.attempt + 1)]
               else failed.writes == s.writes[k := GaveUp(w.attempt)]
  {
    hide NewestOnly, OnlyUnsentAgain, InWindow, HandedOver, Run;
    EveryRunIsSafe(events);
    RunMore(events, Fails(k, neverSent, now));
    var failed := Run(events + [Fails(k, neverSent, now)]);
    if failed.writes[k].Pausing? { RunMore(events + [Fails(k, neverSent, now)], PauseOver(k, later)); }
  }

  /** A write that was sent or given up stays so, and nothing of it is handed over again. */
  lemma {:induction false} SettledStays(events: seq<Event>, m: nat, k: nat)
    requires m <= |events| && k < |Run(events[..m]).writes|
    requires Run(events[..m]).writes[k].Sent? || Run(events[..m]).writes[k].GaveUp?
    ensures k < |Run(events).writes| && Run(events).writes[k] == Run(events[..m]).writes[k]
    ensures HandedOver(Run(events).log, k + 1) == HandedOver(Run(events[..m]).log, k + 1)
    decreases |events|
  {
    hide Counted, NewestOnly, OnlyUnsentAgain, InWindow, FromTheFirst, HandedOver;
    if m == |events| {
      assert events[..m] == events;
    } else {
      var n := |events| - 1;
      assert events[..n][..m] == events[..m];
      SettledStays(events[..n], m, k);
    }
    CountsAttempts(events, k);
    CountsAttempts(events[..m], k);
  }

  lemma CountsAttempts(events: seq<Event>, k: nat)
    requires k < |Run(events).writes|
    ensures HandedOver(Run(events).log, k + 1) == Attempts(Run(events).writes[k])
  {
    EveryRunIsSafe(events);
  }

  /** A hand-over that goes through settles its write, and so does a pause that ends after a newer write began. */
  lemma SettlesWhen(events: seq<Event>, k: nat, now: int)
    requires k < |Run(events).writes|
    ensures var s := Run(events);
            && (s.writes[k].Sending? ==>
                  Run(events + [Succeeds(k, now)]).writes == s.writes[k := Sent(s.writes[k].attempt)])
            && (s.writes[k].Pausing? && k + 1 < |s.writes| ==>
                  Run(events + [PauseOver(k, now)]).writes == s.writes[k := GaveUp(s.writes[k].attempt)])
  {
    hide NewestOnly, OnlyUnsentAgain, InWindow, HandedOver, Run;
    EveryRunIsSafe(events);
    if Run(events).writes[k].Sending? { RunMore(events, Succeeds(k, now)); }
    if Run(events).writes[k].Pausing? { RunMore(events, PauseOver(k, now)); }
  }
}
