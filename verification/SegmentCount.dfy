/** Learning how many segments a strip has: a push may raise the count, but lower it only with knowledge. */
module SegmentCount {
  import opened BleFrame
  import opened Filters
  import opened Options
  import opened SegmentMask

  const SEGMENT_COUNT_MAX := 56

  function Plausible(n: int): Option<nat> {
    if 1 <= n <= SEGMENT_COUNT_MAX then Some(n) else None
  }

  /** The smallest plausible count the capabilities claim. */
  function FromCapabilities(counts: seq<int>): (min: Option<nat>)
    ensures min.Some? ==> min.value in counts && Plausible(min.value).Some?
    ensures forall n | n in counts && Plausible(n).Some? :: min.Some? && min.value <= n
  {
    if counts == [] then None
    else
      var rest, last := FromCapabilities(counts[..|counts| - 1]), counts[|counts| - 1];
      assert forall n | n in counts :: n in counts[..|counts| - 1] || n == last;
      if Plausible(last).Some? && (rest.None? || last < rest.value) then Some(last) else rest
  }

  /** A parsed push: the indices it reports, whether it carries the whole list, whether its end is a guess. */
  datatype Push = Push(indices: seq<nat>, complete: bool, trailGuess: bool)

  /** What a push or a review led to. */
  datatype Outcome =
    | Pushed(count: nat, complete: bool, trailGuess: bool)
    | Adopted(count: nat, was: nat, mask: Option<nat>)
    | Forwarded(indices: seq<nat>)

  /** The device as far as its count is concerned. `manual` is the index list of an active manual mode. */
  datatype State = State(
    quirk: Option<int>, segmentCount: int, capabilities: seq<int>, manual: Option<seq<nat>>,
    mask: Option<nat>, deferred: Option<nat>, log: seq<Outcome>
  ) {
    function QuirkCount(): Option<nat> {
      if quirk.Some? then Plausible(quirk.value) else None
    }

    function Resolved(): nat {
      if QuirkCount().Some? then QuirkCount().value
      else if Plausible(segmentCount).Some? then Plausible(segmentCount).value
      else match FromCapabilities(capabilities) case Some(n) => n case None => 0
    }

    function Lowers(seen: nat, push: Push): bool {
      push.complete && (!push.trailGuess || mask == Some(seen))
    }

    /** The decision is parked: only the masks that have not loaded yet could confirm the guess. */
    function Parks(seen: nat, push: Push): bool {
      push.complete && push.trailGuess && mask.None?
    }

    function Adopt(count: nat): State {
      this.(segmentCount := count, log := log + [Adopted(count, Resolved(), mask)])
    }

    function AfterPush(push: Push): State {
      var seen := Highest(push.indices);
      if push.indices == [] || seen > SEGMENT_COUNT_MAX then this
      else
        var noted := this.(log := log + [Pushed(seen, push.complete, push.trailGuess)],
                           deferred := if seen < Resolved() && Parks(seen, push) then Some(seen) else deferred);
        if QuirkCount().None? && (seen > Resolved() || (seen < Resolved() && Lowers(seen, push))) then noted.Adopt(seen)
        else
          var learned := if QuirkCount().None? && seen == Resolved() then noted.(segmentCount := seen) else noted;
          var kept := Kept(push.indices, manual);
          if kept == [] then learned else learned.(log := learned.log + [Forwarded(kept)])
    }

    /** The masks of the snapshots have loaded. */
    function AfterMasks(reference: Option<nat>): State {
      var loaded := this.(mask := reference, deferred := None);
      if deferred.Some? && deferred.value < Resolved() && reference == deferred then loaded.Adopt(deferred.value)
          else loaded
    }
  }

  /** One more than the highest index. */
  function Highest(indices: seq<nat>): (n: nat)
    ensures forall i | i in indices :: i < n
    ensures indices != [] ==> n > 0 && n - 1 in indices
  {
    if indices == [] then 0
    else
      var rest, last := Highest(indices[..|indices| - 1]), indices[|indices| - 1];
      assert forall i | i in indices :: i in indices[..|indices| - 1] || i == last;
      if last + 1 > rest then last + 1 else rest
  }

  function Kept(indices: seq<nat>, manual: Option<seq<nat>>): seq<nat> {
    if manual.None? || manual.value == [] then indices
    else if indices == [] then []
    else
      var last := indices[|indices| - 1];
      Kept(indices[..|indices| - 1], manual) + (if last in manual.value then [last] else [])
  }

  // ----- in place -----

  class SegmentLearner {
    var quirk: Option<int>
    var segmentCount: int
    var capabilities: seq<int>
    var manual: Option<seq<nat>>
    var mask: Option<nat>
    var deferred: Option<nat>
    var log: seq<Outcome>

    ghost function View(): State
      reads this
    {
      State(quirk, segmentCount, capabilities, manual, mask, deferred, log)
    }

    constructor (quirk: Option<int>, segmentCount: int, capabilities: seq<int>, manual: Option<seq<nat>>)
      ensures View() == State(quirk, segmentCount, capabilities, manual, None, None, [])
    {
      this.quirk, this.segmentCount, this.capabilities, this.manual := quirk, segmentCount, capabilities, manual;
      mask, deferred, log := None, None, [];
    }

    method ResolveSegmentCount() returns (count: nat)
      ensures count == View().Resolved()
    {
      if quirk.Some? && Plausible(quirk.value).Some? { return Plausible(quirk.value).value; }
      if Plausible(segmentCount).Some? { return Plausible(segmentCount).value; }
      var min: Option<nat> := None;
      for k := 0 to |capabilities|
        invariant min == FromCapabilities(capabilities[..k])
      {
        assert capabilities[..k + 1][..k] == capabilities[..k];
        var n := Plausible(capabilities[k]);
        if n.Some? && (min.None? || n.value < min.value) { min := n; }
      }
      assert capabilities[..|capabilities|] == capabilities;
      return if min.Some? then min.value else 0;
    }

    method ProcessMqttSegmentPacket(push: Push)
      modifies this
      ensures View() == old(View()).AfterPush(push)
    {
      hide Highest, Kept, FromCapabilities;
      if push.indices == [] { return; }
      var maxSeen := MaxSeen(push.indices);
      if maxSeen > SEGMENT_COUNT_MAX { return; }
      var quirkLocked := quirk.Some? && Plausible(quirk.value).Some?;
      var current := ResolveSegmentCount();
      log := log + [Pushed(maxSeen, push.complete, push.trailGuess)];
      var grow, lower := maxSeen > current, false;
      if maxSeen < current { lower := MayLowerSegmentCount(maxSeen, push); }
      if !quirkLocked && (grow || lower) {
        AdoptSegmentCount(maxSeen, current);
        return;
      }
      if !quirkLocked && maxSeen == current && segmentCount != maxSeen { segmentCount := maxSeen; }
      ForwardSegments(push.indices);
    }

    method MaxSeen(indices: seq<nat>) returns (maxSeen: nat)
      ensures maxSeen == Highest(indices)
    {
      maxSeen := 0;
      for k := 0 to |indices|
        invariant maxSeen == Highest(indices[..k])
      {
        assert indices[..k + 1][..k] == indices[..k];
        if indices[k] + 1 > maxSeen { maxSeen := indices[k] + 1; }
      }
      assert indices[..|indices|] == indices;
    }

    method ForwardSegments(indices: seq<nat>)
      modifies `log
      ensures log == if Kept(indices, manual) == [] then old(log) else old(log) + [Forwarded(Kept(indices, manual))]
    {
      var filtered := Filter(indices);
      if filtered != [] { log := log + [Forwarded(filtered)]; }
    }

    method Filter(indices: seq<nat>) returns (kept: seq<nat>)
      ensures kept == Kept(indices, manual)
    {
      if manual.None? || manual.value == [] { return indices; }
      kept := [];
      for k := 0 to |indices|
        invariant kept == Kept(indices[..k], manual)
      {
        assert indices[..k + 1][..k] == indices[..k];
        if indices[k] in manual.value { kept := kept + [indices[k]]; }
      }
      assert indices[..|indices|] == indices;
    }

    method MayLowerSegmentCount(seen: nat, push: Push) returns (may: bool)
      modifies `deferred
      ensures may == old(View()).Lowers(seen, push)
      ensures deferred == if old(View()).Parks(seen, push) then Some(seen) else old(deferred)
    {
      if !push.complete { return false; }
      if !push.trailGuess { return true; }
      if mask == Some(seen) { return true; }
      if mask.None? { deferred := Some(seen); }
      return false;
    }

    method ReviewDeferredSegmentShrink(reference: Option<nat>)
      modifies this
      ensures View() == old(View()).AfterMasks(reference)
    {
      mask := reference;
      if deferred.None? { return; }
      var seen := deferred.value;
      deferred := None;
      var current := ResolveSegmentCount();
      if seen < current && mask == Some(seen) { AdoptSegmentCount(seen, current); }
    }

    method AdoptSegmentCount(count: nat, was: nat)
      requires was == View().Resolved()
      modifies `segmentCount, `log
      ensures View() == old(View()).Adopt(count)
    {
      segmentCount := count;
      log := log + [Adopted(count, was, mask)];
    }
  }

  // ----- whole runs -----

  datatype Event = Packet(push: Push) | Masks(reference: Option<nat>)

  function Next(s: State, e: Event): State {
    match e
    case Packet(push) => s.AfterPush(push)
    case Masks(reference) => s.AfterMasks(reference)
  }

  function Run(first: State, events: seq<Event>): State {
    if events == [] then first else Next(Run(first, events[..|events| - 1]), events[|events| - 1])
  }

  /** A push of this count came before, complete, and its end was no guess or is what the masks say. */
  ghost predicate Known(log: seq<Outcome>, count: nat, mask: Option<nat>) {
    exists j | 0 <= j < |log| ::
        log[j].Pushed? && log[j].count == count && log[j].complete && (log[j].trailGuess ==> mask == Some(count))
  }

  ghost predicate Seen(log: seq<Outcome>, count: nat) {
    exists j | 0 <= j < |log| :: log[j].Pushed? && log[j].count == count
  }

  /** Every count adopted was pushed, fits the protocol, and is lower than before only with knowledge. */
  ghost predicate Learned(s: State) {
    && (forall i | 0 <= i < |s.log| && s.log[i].Adopted? :: Sound(s.log, i))
    && (s.deferred.Some? ==> 1 <= s.deferred.value <= SEGMENT_COUNT_MAX && Parked(s.log, s.deferred.value))
  }

  ghost predicate Sound(log: seq<Outcome>, i: nat)
    requires i < |log| && log[i].Adopted?
  {
    && 1 <= log[i].count <= 56 && log[i].count != log[i].was
    && Seen(log[..i], log[i].count)
    && (log[i].count < log[i].was ==> Known(log[..i], log[i].count, log[i].mask))
  }

  ghost predicate Parked(log: seq<Outcome>, count: nat) {
    Pushed(count, true, true) in log
  }

  lemma SoundStays(log: seq<Outcome>, more: seq<Outcome>, i: nat)
    requires i < |log| && log[i].Adopted? && Sound(log, i)
    ensures Sound(log + more, i)
  {
    assert (log + more)[..i] == log[..i];
  }

  /** A log that grows by what is no adoption. */
  lemma LearnedGrows(s: State, after: State, o: Outcome)
    requires Learned(s) && !o.Adopted? && after.log == s.log + [o]
    requires after.deferred == s.deferred || after.deferred.None?
          || (1 <= after.deferred.value <= SEGMENT_COUNT_MAX && o == Pushed(after.deferred.value, true, true))
    ensures Learned(after)
  {
    hide Sound;
    forall i | 0 <= i < |after.log| && after.log[i].Adopted? ensures Sound(after.log, i) { SoundStays(s.log, [o], i); }
    assert after.log[|s.log|] == o;
  }

  /** A log that grows by an adoption. */
  lemma LearnedAdopts(s: State, count: nat)
    requires Learned(s) && 1 <= count <= SEGMENT_COUNT_MAX && count != s.Resolved() && Seen(s.log, count)
    requires count < s.Resolved() ==> Known(s.log, count, s.mask)
    ensures Learned(s.Adopt(count))
  {
    var after := s.Adopt(count);
    forall i | 0 <= i < |after.log| && after.log[i].Adopted? ensures Sound(after.log, i) {
      if i < |s.log| { SoundStays(s.log, [after.log[|s.log|]], i); } else { assert after.log[..i] == s.log; }
    }
  }

  lemma NextIsLearned(s: State, e: Event)
    requires Learned(s)
    ensures Learned(Next(s, e))
  {
    hide Learned, Sound, Seen, Known;
    match e
    case Packet(push) =>
      var seen := Highest(push.indices);
      if push.indices != [] && seen <= SEGMENT_COUNT_MAX {
        var pushed := Pushed(seen, push.complete, push.trailGuess);
        var noted := s.(log := s.log + [pushed], deferred := if seen < s.Resolved() && s.Parks(seen, push) then
            Some(seen) else s.deferred);
        LearnedGrows(s, noted, pushed);
        PushIsSeen(s.log, pushed, s.mask);
        if s.QuirkCount().None? && (seen > s.Resolved() || (seen < s.Resolved() && s.Lowers(seen, push))) {
          assert noted.Resolved() == s.Resolved();
          LearnedAdopts(noted, seen);
        } else {
          var kept := Kept(push.indices, s.manual);
          var learned := s.AfterPush(push);
          SameLog(noted, noted.(segmentCount := learned.segmentCount));
          if kept != [] { LearnedGrows(noted.(segmentCount := learned.segmentCount), learned, Forwarded(kept)); }
        }
      }
    case Masks(reference) =>
      var loaded := s.(mask := reference, deferred := None);
      SameLog(s, loaded);
      if s.deferred.Some? {
        DeferredWasPushed(s);
        if s.deferred.value < s.Resolved() && reference == s.deferred {
          assert loaded.Resolved() == s.Resolved();
          LearnedAdopts(loaded, s.deferred.value);
        }
      }
  }

  lemma PushIsSeen(log: seq<Outcome>, pushed: Outcome, mask: Option<nat>)
    requires pushed.Pushed?
    ensures Seen(log + [pushed], pushed.count)
    ensures pushed.complete && (pushed.trailGuess ==> mask == Some(pushed.count)) ==>
            Known(log + [pushed], pushed.count, mask)
  {
    assert (log + [pushed])[|log|] == pushed;
  }

  lemma SameLog(s: State, after: State)
    requires Learned(s) && after.log == s.log && (after.deferred == s.deferred || after.deferred.None?)
    ensures Learned(after)
  {
  }

  lemma DeferredWasPushed(s: State)
    requires Learned(s) && s.deferred.Some?
    ensures 1 <= s.deferred.value <= SEGMENT_COUNT_MAX
    ensures Seen(s.log, s.deferred.value) && Known(s.log, s.deferred.value, s.deferred)
  {
    var j :| 0 <= j < |s.log| && s.log[j] == Pushed(s.deferred.value, true, true);
  }

  /** Whatever a device is, and whatever pushes and masks arrive: counts only shrink with knowledge. */
  lemma {:induction false} EveryRunIsLearned(first: State, events: seq<Event>)
    requires first.log == [] && first.deferred.None?
    ensures Learned(Run(first, events)) && Run(first, events).Resolved() <= 56
    decreases |events|
  {
    hide Next;
    if events != [] {
      EveryRunIsLearned(first, events[..|events| - 1]);
      NextIsLearned(Run(first, events[..|events| - 1]), events[|events| - 1]);
    }
  }

  /** What is adopted becomes the count, unless a quirk holds it. */
  lemma AdoptedIsResolved(s: State, count: nat)
    requires Plausible(count).Some?
    ensures s.Adopt(count).Resolved() == if s.QuirkCount().Some? then s.Resolved() else count
  {
  }

  // ----- what a push and the masks decide, in numbers -----

  /** The count a tree is built from: a quirk, else what was learned, else the least the capabilities claim. */
  lemma ResolvedIs(s: State)
    ensures s.quirk.Some? && 1 <= s.quirk.value <= 56 ==> s.Resolved() == s.quirk.value
    ensures !(s.quirk.Some? && 1 <= s.quirk.value <= 56) && 1 <= s.segmentCount <= 56 ==>
              s.Resolved() == s.segmentCount
    ensures !(s.quirk.Some? && 1 <= s.quirk.value <= 56) && !(1 <= s.segmentCount <= 56) ==>
              && (forall n | n in s.capabilities && 1 <= n <= 56 :: 1 <= s.Resolved() <= n)
              && (s.Resolved() != 0 ==> s.Resolved() <= 56 && s.Resolved() in s.capabilities)
  {
  }

  /** The indices of a push that are shown: those a manual list has, all without one. */
  function Shown(manual: Option<seq<nat>>): nat -> bool {
    i => manual.None? || manual.value == [] || i in manual.value
  }

  lemma {:induction false} KeptIs(indices: seq<nat>, manual: Option<seq<nat>>) returns (from: seq<nat>)
    ensures IsFilter(indices, Shown(manual), Kept(indices, manual), from)
  {
    hide IsFilter;
    if manual.None? || manual.value == [] {
      from := AllFiltered(indices, Shown(manual));
    } else if indices == [] {
      from := [];
      NothingFiltered(Shown(manual));
    } else {
      var n := |indices| - 1;
      from := KeptIs(indices[..n], manual);
      FilterMore(indices, Shown(manual), Kept(indices[..n], manual), from);
      if indices[n] in manual.value {
        from := from + [n];
      } else {
        assert Kept(indices, manual) == Kept(indices[..n], manual);
      }
    }
  }

  /** Every outcome of a push: `seen` is one more than its highest index, `now` the count the tree has. */
  lemma PushDecides(s: State, push: Push, seen: nat) returns (kept: seq<nat>, from: seq<nat>)
    requires seen > 0 && seen - 1 in push.indices && forall i | i in push.indices :: i < seen
    ensures IsFilter(push.indices, Shown(s.manual), kept, from)
    ensures var after, now, pushed := s.AfterPush(push), s.Resolved(), Pushed(seen, push.complete, push.trailGuess);
            var locked := s.quirk.Some? && 1 <= s.quirk.value <= 56;
            if seen > 56 then after == s
            else if !locked && (seen > now
                || (seen < now && push.complete && (!push.trailGuess || s.mask == Some(seen)))) then
              && after.log == s.log + [pushed, Adopted(seen, now, s.mask)]
              && after == s.(segmentCount := seen, deferred := after.deferred, log := after.log)
            else
              && after.log == s.log + [pushed] + (if kept == [] then [] else [Forwarded(kept)])
              && after == s.(segmentCount := after.segmentCount, deferred := after.deferred, log := after.log)
              && after.segmentCount == if !locked && seen == now then seen else s.segmentCount
    ensures s.AfterPush(push).deferred ==
            if seen <= 56 && seen < s.Resolved() && push.complete && push.trailGuess && s.mask.None? then Some(seen)
            else s.deferred
  {
    hide Kept, FromCapabilities, IsFilter;
    kept := Kept(push.indices, s.manual);
    from := KeptIs(push.indices, s.manual);
    assert Highest(push.indices) == seen;
    hide Highest;
  }

  /** The masks decide a parked count: it is adopted exactly when they say the same and it is lower than the count. */
  lemma MasksDecide(s: State, reference: Option<nat>)
    ensures var after := s.AfterMasks(reference);
            && after == s.(segmentCount := after.segmentCount, mask := reference, deferred := None, log := after.log)
            && if s.deferred.Some? && s.deferred.value < s.Resolved() && reference == s.deferred then
                 && after.segmentCount == s.deferred.value
                 && after.log == s.log + [Adopted(s.deferred.value, s.Resolved(), reference)]
               else after.segmentCount == s.segmentCount && after.log == s.log
  {
  }

  // ----- quirks -----

  /** A valid quirk holds the resolved count through every run. */
  lemma {:induction false} QuirkHoldsTheCount(first: State, events: seq<Event>)
    requires first.QuirkCount().Some?
    ensures Run(first, events).quirk == first.quirk && Run(first, events).Resolved() == first.Resolved()
    decreases |events|
  {
    if events != [] { QuirkHoldsTheCount(first, events[..|events| - 1]); }
  }

  /** Under a quirk no push is adopted; a review is, exactly when the masks confirm a parked count below the quirk's. */
  lemma QuirkedStepAdoptsIff(s: State, e: Event)
    requires s.QuirkCount().Some?
    ensures (exists i | |s.log| <= i < |Next(s, e).log| :: Next(s, e).log[i].Adopted?)
       <==> e.Masks? && s.deferred.Some? && e.reference == s.deferred && s.deferred.value < s.Resolved()
  {
    if e.Masks? && s.deferred.Some? && e.reference == s.deferred && s.deferred.value < s.Resolved() {
      assert Next(s, e).log[|s.log|].Adopted?;
    }
  }

  /** So a push parked under a quirk still ends in a rebuild and overwrites the stored count. */
  lemma ParkedUnderAQuirkRebuilds(s: State, push: Push)
    requires s.QuirkCount().Some? && s.mask.None? && push.complete && push.trailGuess
    requires push.indices != [] && Highest(push.indices) < s.Resolved()
    ensures var seen := Highest(push.indices);
            var after := Run(s, [Packet(push), Masks(Some(seen))]);
            && after.segmentCount == seen && after.Resolved() == s.Resolved()
            && after.log != [] && after.log[|after.log| - 1] == Adopted(seen, s.Resolved(), Some(seen))
  {
    var events := [Packet(push), Masks(Some(Highest(push.indices)))];
    assert events[..1] == [Packet(push)] && events[..1][..0] == [];
    assert Run(s, events[..1]) == s.AfterPush(push);
  }

  // ----- the masks of the snapshots -----

  predicate NamesSegments(frame: seq<Byte>) {
    |frame| == 20 && frame[0] == 0x33 && frame[1] == 0x05 && frame[2] == 0x15 && frame[3] == 0x01
  }

  /** Segment `i` is addressed by some frame. */
  predicate Addressed(frames: seq<seq<Byte>>, i: nat) {
    i < 56 && exists f | 0 <= f < |frames| :: NamesSegments(frames[f]) && Bit(frames[f][12..19], i)
  }

  method SegmentCountFromSnapshotFrames(frames: seq<seq<Byte>>) returns (count: Option<nat>)
    ensures count.None? ==> forall i: nat :: !Addressed(frames, i)
    ensures count.Some? ==> count.value > 0 && Addressed(frames, count.value - 1)
    ensures count.Some? ==> forall i: nat | Addressed(frames, i) :: i < count.value
  {
    var highest := -1;
    for f := 0 to |frames|
      invariant -1 <= highest < 56
      invariant highest >= 0 ==> Addressed(frames, highest)
      invariant forall g, i: nat | 0 <= g < f && NamesSegments(frames[g]) && i < 56 && Bit(frames[g][12..19], i) ::
                i <= highest
    {
      if !NamesSegments(frames[f]) { continue; }
      for b := 0 to 56
        invariant -1 <= highest < 56
        invariant highest >= 0 ==> Addressed(frames, highest)
        invariant forall g, i: nat | 0 <= g < f && NamesSegments(frames[g]) && i < 56 && Bit(frames[g][12..19], i) ::
                  i <= highest
        invariant forall i: nat | i < b && Bit(frames[f][12..19], i) :: i <= highest
      {
        if Bit(frames[f][12..19], b) && b > highest { highest := b; }
      }
    }
    return if highest >= 0 then Some(highest + 1) else None;
  }

  /** A frame that carries the built mask of a strip's segments names exactly its count. */
  lemma BuiltMaskNamesTheCount(frame: seq<Byte>, segments: seq<nat>, i: nat)
    requires NamesSegments(frame) && segments != [] && Highest(segments) <= SEGMENT_COUNT_MAX
    requires forall b | 0 <= b < 56 :: Bit(frame[12..19], b) <==> b in segments
    ensures Addressed([frame], Highest(segments) - 1)
    ensures Addressed([frame], i) ==> i < Highest(segments)
  {
    assert [frame][0] == frame;
  }
}
