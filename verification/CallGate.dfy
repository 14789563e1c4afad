/** The gate before every counterpart: sliding windows over the calls let through, and the hold after a 429. */
module CallGate {
  import opened Decimal
  import opened Options
  import TimingConstants

  const GATE_MAX_WINDOW_SECONDS := 3600
  const DEFAULT_RETRY_AFTER_MS := 60000

  /** At most `max` calls in any `seconds` window. */
  datatype Limit = Limit(max: nat, seconds: nat, perHost: bool) {
    /** The gate keeps this window; longer ones belong to the rate limiter. */
    predicate Short() {
      seconds <= GATE_MAX_WINDOW_SECONDS
    }

    function Window(): nat {
      seconds * 1000
    }
  }

  datatype Counterpart = Counterpart(name: string, limits: seq<Limit>)

  /** A number of the source: one computed from a missing element is not a number. */
  datatype Number = Ms(ms: nat) | NaN

  type Seen = map<string, seq<int>>

  // ----- the windows, on values -----

  function Key(c: Counterpart, i: nat, host: string): string
    requires i < |c.limits|
  {
    c.name + "|" + Print(i) + "|" + (if c.limits[i].perHost then host else "")
  }

  function Get(seen: Seen, key: string): seq<int> {
    if key in seen then seen[key] else []
  }

  function Kept(times: seq<int>, window: nat, now: int): seq<int> {
    if times == [] then []
    else
      var last := times[|times| - 1];
      Kept(times[..|times| - 1], window, now) + (if now - last < window then [last] else [])
  }

  function KeptFor(seen: Seen, c: Counterpart, i: nat, host: string, now: int): seq<int>
    requires i < |c.limits|
  {
    Kept(Get(seen, Key(c, i, host)), c.limits[i].Window(), now)
  }

  /** The longer of a wait and what one limit asks for. */
  function Longer(w: Number, limit: Limit, kept: seq<int>, now: int): Number {
    if |kept| < limit.max then w
    else if limit.max == 0 || w.NaN? then NaN
    else
      var wait := kept[|kept| - limit.max] + limit.Window() - now + 1;
      if wait > w.ms then Ms(wait) else w
  }

  function WaitUpTo(seen: Seen, c: Counterpart, host: string, now: int, n: nat): Number
    requires n <= |c.limits|
  {
    if n == 0 then Ms(0)
    else
      var w := WaitUpTo(seen, c, host, now, n - 1);
      if c.limits[n - 1].Short() then Longer(w, c.limits[n - 1], KeptFor(seen, c, n - 1, host, now), now) else w
  }

  function WaitFor(seen: Seen, c: Counterpart, host: string, now: int): Number {
    WaitUpTo(seen, c, host, now, |c.limits|)
  }

  /** `waitMs(...) > 0` is false. */
  predicate Fits(seen: Seen, c: Counterpart, host: string, now: int) {
    var w := WaitFor(seen, c, host, now);
    w.NaN? || w.ms == 0
  }

  function PrunedUpTo(seen: Seen, c: Counterpart, host: string, now: int, n: nat): Seen
    requires n <= |c.limits|
  {
    if n == 0 then seen
    else
      var before := PrunedUpTo(seen, c, host, now, n - 1);
      if c.limits[n - 1].Short() then before[Key(c, n - 1, host) := KeptFor(before, c, n - 1, host, now)] else before
  }

  function Pruned(seen: Seen, c: Counterpart, host: string, now: int): Seen {
    PrunedUpTo(seen, c, host, now, |c.limits|)
  }

  function CountedUpTo(seen: Seen, c: Counterpart, host: string, now: int, n: nat): Seen
    requires n <= |c.limits|
  {
    if n == 0 then seen
    else
      var before := CountedUpTo(seen, c, host, now, n - 1);
      var key := Key(c, n - 1, host);
      if c.limits[n - 1].Short() then before[key := Get(before, key) + [now]] else before
  }

  function Counted(seen: Seen, c: Counterpart, host: string, now: int): Seen {
    CountedUpTo(seen, c, host, now, |c.limits|)
  }

  // ----- the hold, on values -----

  function HoldMs(retryAfter: Option<nat>): (ms: nat)
    ensures TimingConstants.MIN_RATE_LIMIT_RETRY_MS <= ms <= TimingConstants.MAX_RATE_LIMIT_RETRY_MS
  {
    var ms := match retryAfter case Some(seconds) => seconds * 1000 case None => DEFAULT_RETRY_AFTER_MS;
    var floored := if ms < TimingConstants.MIN_RATE_LIMIT_RETRY_MS then TimingConstants.MIN_RATE_LIMIT_RETRY_MS else ms;
    if floored > TimingConstants.MAX_RATE_LIMIT_RETRY_MS then TimingConstants.MAX_RATE_LIMIT_RETRY_MS else floored
  }

  function Held(until: map<string, int>, host: string, retryAfter: Option<nat>, now: int): map<string, int> {
    var before := if host in until then until[host] else 0;
    var end := now + HoldMs(retryAfter);
    until[host := if before > end then before else end]
  }

  /**
   * What a 429 answered at `now` does to the holds: 60 s when it names no wait, else the seconds it names between 5 s
   * and an hour, and never less than the host is held already.
   */
  ghost predicate HeldAsNamed(before: map<string, int>, after: map<string, int>, host: string, retryAfter: Option<nat>,
      now: nat)
  {
    && after.Keys == before.Keys + {host}
    && (forall other | other in before && other != host :: after[other] == before[other])
    && var end := now + match retryAfter
         case None => 60000
         case Some(seconds) => if seconds < 5 then 5000 else if seconds > 3600 then 3600000 else 1000 * seconds;
       after[host] == if host in before && before[host] > end then before[host] else end
  }

  function HeldLeft(until: map<string, int>, host: string, now: int): nat {
    if host in until && until[host] > now then until[host] - now else 0
  }

  function WithoutExpired(until: map<string, int>, host: string, now: int): map<string, int> {
    if HeldLeft(until, host, now) == 0 then until - {host} else until
  }

  // ----- keys -----

  lemma BarSplit(x: string, y: string, x': string, y': string)
    requires '|' !in x && '|' !in x' && x + "|" + y == x' + "|" + y'
    ensures x == x' && y == y'
  {
    var s := x + "|" + y;
    assert s[|x|] == '|' && s[|x'|] == '|' && s[..|x|] == x && s[..|x'|] == x';
    assert s[|x| + 1..] == y && s[|x'| + 1..] == y';
  }

  function Scope(c: Counterpart, i: nat, host: string): string
    requires i < |c.limits|
  {
    if c.limits[i].perHost then host else ""
  }

  lemma KeyIs(c: Counterpart, i: nat, host: string)
    requires i < |c.limits|
    ensures Key(c, i, host) == c.name + "|" + (Print(i) + "|" + Scope(c, i, host))
  {
  }

  /** The text of a key determines its index and, where names hold no bar, all of it. */
  lemma KeyDetermines(c: Counterpart, i: nat, g: string, d: Counterpart, j: nat, h: string)
    requires i < |c.limits| && j < |d.limits| && Key(c, i, g) == Key(d, j, h)
    requires c.name == d.name || ('|' !in c.name && '|' !in d.name)
    ensures c.name == d.name && i == j && Scope(c, i, g) == Scope(d, j, h)
  {
    hide Key;
    KeyIs(c, i, g);
    KeyIs(d, j, h);
    var x, y := Print(i) + "|" + Scope(c, i, g), Print(j) + "|" + Scope(d, j, h);
    if c.name == d.name {
      assert Key(c, i, g)[|c.name + "|"|..] == x && Key(d, j, h)[|c.name + "|"|..] == y;
    } else {
      BarSplit(c.name, x, d.name, y);
    }
    BarSplit(Print(i), Scope(c, i, g), Print(j), Scope(d, j, h));
    PrintInjective(i, j);
  }

  lemma {:induction false} PrunedElsewhere(seen: Seen, c: Counterpart, host: string, now: int, n: nat, key: string)
    requires n <= |c.limits| && forall j | 0 <= j < n && c.limits[j].Short() :: Key(c, j, host) != key
    ensures Get(PrunedUpTo(seen, c, host, now, n), key) == Get(seen, key)
  {
    if n > 0 { PrunedElsewhere(seen, c, host, now, n - 1, key); }
  }

  lemma {:induction false} PrunedAt(seen: Seen, c: Counterpart, host: string, now: int, n: nat, i: nat)
    requires i < n <= |c.limits| && c.limits[i].Short()
    ensures Get(PrunedUpTo(seen, c, host, now, n), Key(c, i, host)) == KeptFor(seen, c, i, host, now)
  {
    hide Key, Kept;
    forall j | 0 <= j < n && j != i ensures Key(c, j, host) != Key(c, i, host) { OtherKey(c, host, i, j); }
    if i == n - 1 {
      PrunedElsewhere(seen, c, host, now, i, Key(c, i, host));
    } else {
      PrunedAt(seen, c, host, now, n - 1, i);
    }
  }

  lemma OtherKey(c: Counterpart, host: string, i: nat, j: nat)
    requires i < |c.limits| && j < |c.limits| && i != j
    ensures Key(c, i, host) != Key(c, j, host)
  {
    if Key(c, i, host) == Key(c, j, host) { KeyDetermines(c, i, host, c, j, host); }
  }

  lemma {:induction false} CountedElsewhere(seen: Seen, c: Counterpart, host: string, now: int, n: nat, key: string)
    requires n <= |c.limits| && forall j | 0 <= j < n && c.limits[j].Short() :: Key(c, j, host) != key
    ensures Get(CountedUpTo(seen, c, host, now, n), key) == Get(seen, key)
  {
    if n > 0 { CountedElsewhere(seen, c, host, now, n - 1, key); }
  }

  lemma {:induction false} CountedAt(seen: Seen, c: Counterpart, host: string, now: int, n: nat, i: nat)
    requires i < n <= |c.limits| && c.limits[i].Short()
    ensures Get(CountedUpTo(seen, c, host, now, n), Key(c, i, host)) == Get(seen, Key(c, i, host)) + [now]
  {
    hide Key;
    forall j | 0 <= j < n && j != i ensures Key(c, j, host) != Key(c, i, host) { OtherKey(c, host, i, j); }
    if i == n - 1 {
      CountedElsewhere(seen, c, host, now, i, Key(c, i, host));
    } else {
      CountedAt(seen, c, host, now, n - 1, i);
    }
  }

  // ----- one window -----

  ghost predicate Sorted(times: seq<int>) {
    forall j, k | 0 <= j < k < |times| :: times[j] <= times[k]
  }

  /** How many of the first calls are out of the window. */
  function Expired(times: seq<int>, window: nat, now: int): (d: nat)
    ensures d <= |times|
    ensures forall k | 0 <= k < d :: now - times[k] >= window
    ensures d < |times| ==> now - times[d] < window
  {
    if times == [] || now - times[0] < window then 0 else 1 + Expired(times[1..], window, now)
  }

  lemma {:induction false} KeptFrom(times: seq<int>, window: nat, now: int, d: nat)
    requires d <= |times|
    requires forall k | 0 <= k < d :: now - times[k] >= window
    requires forall k | d <= k < |times| :: now - times[k] < window
    ensures Kept(times, window, now) == times[d..]
  {
    if times != [] {
      var n := |times| - 1;
      if d <= n {
        KeptFrom(times[..n], window, now, d);
        assert times[d..] == times[..n][d..] + [times[n]];
      } else {
        KeptFrom(times[..n], window, now, n);
      }
    }
  }

  /** In a sorted list the calls still in the window are its end. */
  lemma KeptIsEnd(times: seq<int>, window: nat, now: int)
    requires Sorted(times)
    ensures var kept := Kept(times, window, now);
            && |kept| <= |times| && kept == times[|times| - |kept|..]
            && (forall k | 0 <= k < |times| - |kept| :: now - times[k] >= window)
            && (forall k | |times| - |kept| <= k < |times| :: now - times[k] < window)
  {
    hide Kept;
    var d := Expired(times, window, now);
    assert forall k | d <= k < |times| :: times[d] <= times[k];
    KeptFrom(times, window, now, d);
  }

  /** Every limit the gate keeps allows a call. */
  ghost predicate Positive(c: Counterpart) {
    forall i | 0 <= i < |c.limits| && c.limits[i].Short() :: c.limits[i].max >= 1
  }

  /** Limit `i` has room. */
  predicate Room(seen: Seen, c: Counterpart, i: nat, host: string, now: int)
    requires i < |c.limits|
  {
    c.limits[i].Short() ==> |KeptFor(seen, c, i, host, now)| < c.limits[i].max
  }

  /** What the full limit `i` asks the caller to wait. */
  function Asks(seen: Seen, c: Counterpart, i: nat, host: string, now: int): int
    requires i < |c.limits| && !Room(seen, c, i, host, now) && c.limits[i].max >= 1
  {
    var kept := KeptFor(seen, c, i, host, now);
    kept[|kept| - c.limits[i].max] + c.limits[i].Window() - now + 1
  }

  lemma {:induction false} KeptInWindow(times: seq<int>, window: nat, now: int)
    ensures forall t | t in Kept(times, window, now) :: now - t < window
  {
    if times != [] { KeptInWindow(times[..|times| - 1], window, now); }
  }

  lemma AsksTwo(seen: Seen, c: Counterpart, i: nat, host: string, now: int)
    requires i < |c.limits| && !Room(seen, c, i, host, now) && c.limits[i].max >= 1
    ensures Asks(seen, c, i, host, now) >= 2
  {
    KeptInWindow(Get(seen, Key(c, i, host)), c.limits[i].Window(), now);
    var kept := KeptFor(seen, c, i, host, now);
    assert kept[|kept| - c.limits[i].max] in kept;
  }

  /** The wait is the longest any full limit asks for, and none when all have room. */
  lemma {:induction false} WaitIsLongest(seen: Seen, c: Counterpart, host: string, now: int, n: nat)
    requires n <= |c.limits| && Positive(c)
    ensures var w := WaitUpTo(seen, c, host, now, n);
            && w.Ms?
            && (forall i | 0 <= i < n && !Room(seen, c, i, host, now) :: 2 <= Asks(seen, c, i, host, now) <= w.ms)
            && (w.ms > 0 ==> exists i ::
                0 <= i < n && !Room(seen, c, i, host, now) && Asks(seen, c, i, host, now) == w.ms)
  {
    hide Kept, Key;
    if n > 0 {
      WaitIsLongest(seen, c, host, now, n - 1);
      if !Room(seen, c, n - 1, host, now) { AsksTwo(seen, c, n - 1, host, now); }
    }
  }

  lemma FitsIsRoom(seen: Seen, c: Counterpart, host: string, now: int)
    requires Positive(c)
    ensures Fits(seen, c, host, now) <==> forall i | 0 <= i < |c.limits| :: Room(seen, c, i, host, now)
  {
    hide Kept, Key;
    WaitIsLongest(seen, c, host, now, |c.limits|);
  }

  // ----- the exact wait -----

  ghost predicate SortedFor(seen: Seen, c: Counterpart, host: string) {
    forall i | 0 <= i < |c.limits| && c.limits[i].Short() :: Sorted(Get(seen, Key(c, i, host)))
  }

  /** When a full limit has room again: 1 ms before the wait it asks for is over. */
  lemma RoomAgain(seen: Seen, c: Counterpart, i: nat, host: string, now: int, t: int)
    requires i < |c.limits| && c.limits[i].max >= 1 && now <= t && Sorted(Get(seen, Key(c, i, host)))
    requires !Room(seen, c, i, host, now)
    ensures Room(seen, c, i, host, t) <==> t >= now + Asks(seen, c, i, host, now) - 1
  {
    var times, window := Get(seen, Key(c, i, host)), c.limits[i].Window();
    KeptIsEnd(times, window, now);
    KeptIsEnd(times, window, t);
    var first := times[|times| - c.limits[i].max];
    assert Asks(seen, c, i, host, now) == first + window - now + 1;
  }

  /** Time alone never takes room away. */
  lemma RoomStays(seen: Seen, c: Counterpart, i: nat, host: string, now: int, t: int)
    requires i < |c.limits| && c.limits[i].Short() && now <= t && Sorted(Get(seen, Key(c, i, host)))
    requires Room(seen, c, i, host, now)
    ensures Room(seen, c, i, host, t)
  {
    var times, window := Get(seen, Key(c, i, host)), c.limits[i].Window();
    KeptIsEnd(times, window, now);
    KeptIsEnd(times, window, t);
    var n := |times| - |Kept(times, window, t)|;
    assert n < |times| ==> now - times[n] < window;
  }

  /** After `now` a call that had to wait fits exactly from 1 ms before the end of its wait on. */
  lemma WaitIsExact(seen: Seen, c: Counterpart, host: string, now: int, t: int)
    requires Positive(c) && SortedFor(seen, c, host) && now <= t && !Fits(seen, c, host, now)
    ensures WaitFor(seen, c, host, now).Ms? && WaitFor(seen, c, host, now).ms >= 2
    ensures Fits(seen, c, host, t) <==> t >= now + WaitFor(seen, c, host, now).ms - 1
  {
    hide Kept, Key, Room, Asks, WaitUpTo;
    var w := WaitFor(seen, c, host, now);
    WaitIsLongest(seen, c, host, now, |c.limits|);
    FitsIsRoom(seen, c, host, now);
    FitsIsRoom(seen, c, host, t);
    forall i | 0 <= i < |c.limits| && Room(seen, c, i, host, now) ensures Room(seen, c, i, host, t) {
      if c.limits[i].Short() { RoomStays(seen, c, i, host, now, t); } else { LongHasRoom(seen, c, i, host, t); }
    }
    forall i | 0 <= i < |c.limits| && !Room(seen, c, i, host, now)
      ensures c.limits[i].max >= 1
      ensures Room(seen, c, i, host, t) <==> t >= now + Asks(seen, c, i, host, now) - 1
    {
      if !c.limits[i].Short() { LongHasRoom(seen, c, i, host, now); }
      RoomAgain(seen, c, i, host, now, t);
    }
  }

  lemma LongHasRoom(seen: Seen, c: Counterpart, i: nat, host: string, now: int)
    requires i < |c.limits| && !c.limits[i].Short()
    ensures Room(seen, c, i, host, now)
  {
  }

  /** One limit that allows no call at all makes the wait no number: the counterpart's other limits are off too. */
  lemma {:induction false} NoCallsAllowedAdmitsAll(seen: Seen, c: Counterpart, host: string, now: int, i: nat)
    requires i < |c.limits| && c.limits[i].Short() && c.limits[i].max == 0
    ensures Fits(seen, c, host, now)
  {
    StaysNaN(seen, c, host, now, i + 1, |c.limits|);
  }

  lemma {:induction false} StaysNaN(seen: Seen, c: Counterpart, host: string, now: int, m: nat, n: nat)
    requires m <= n <= |c.limits| && WaitUpTo(seen, c, host, now, m).NaN?
    ensures WaitUpTo(seen, c, host, now, n).NaN?
    decreases n
  {
    if m < n { StaysNaN(seen, c, host, now, m, n - 1); }
  }

  // ----- the gate -----

  /** What a counterpart answered a request. */
  datatype Answer = Fine | TooMany(retryAfter: Option<nat>) | OtherError

  datatype Reply = Undeclared | HeldBack(seconds: nat) | Sent(answer: Answer)

  class Gate {
    var seen: Seen
    var heldUntil: map<string, int>

    constructor ()
      ensures seen == map[] && heldUntil == map[]
    {
      seen, heldUntil := map[], map[];
    }

    method Window(c: Counterpart, i: nat, host: string, now: int) returns (kept: seq<int>)
      requires i < |c.limits|
      modifies `seen
      ensures kept == KeptFor(old(seen), c, i, host, now)
      ensures seen == old(seen)[Key(c, i, host) := kept]
    {
      var times := if Key(c, i, host) in seen then seen[Key(c, i, host)] else [];
      kept := [];
      for k := 0 to |times|
        invariant kept == Kept(times[..k], c.limits[i].Window(), now)
        invariant seen == old(seen)
      {
        assert times[..k + 1][..k] == times[..k];
        if now - times[k] < c.limits[i].Window() { kept := kept + [times[k]]; }
      }
      assert times[..|times|] == times;
      seen := seen[Key(c, i, host) := kept];
    }

    method WaitMs(c: Counterpart, host: string, now: int) returns (longest: Number)
      modifies `seen
      ensures longest == WaitFor(old(seen), c, host, now)
      ensures seen == Pruned(old(seen), c, host, now)
    {
      longest := Ms(0);
      for i := 0 to |c.limits|
        invariant longest == WaitUpTo(old(seen), c, host, now, i)
        invariant seen == PrunedUpTo(old(seen), c, host, now, i)
      {
        var limit := c.limits[i];
        if limit.seconds > GATE_MAX_WINDOW_SECONDS { continue; }
        forall j | 0 <= j < i ensures Key(c, j, host) != Key(c, i, host) { OtherKey(c, host, i, j); }
        PrunedElsewhere(old(seen), c, host, now, i, Key(c, i, host));
        var times := Window(c, i, host, now);
        if |times| >= limit.max {
          longest := Longer(longest, limit, times, now);
        }
      }
    }

    /** `now` is read once for the decision and once more for what is counted. */
    method TryAdmit(c: Counterpart, host: string, now: int, later: int) returns (admitted: bool)
      modifies `seen
      ensures admitted == Fits(old(seen), c, host, now)
      ensures seen == var p := Pruned(old(seen), c, host, now); if admitted then Counted(p, c, host, later) else p
    {
      var wait := WaitMs(c, host, now);
      if wait.Ms? && wait.ms > 0 { return false; }
      ghost var pruned := seen;
      for i := 0 to |c.limits|
        invariant seen == CountedUpTo(pruned, c, host, later, i)
      {
        if c.limits[i].seconds <= GATE_MAX_WINDOW_SECONDS {
          var key := Key(c, i, host);
          seen := seen[key := (if key in seen then seen[key] else []) + [later]];
        }
      }
      return true;
    }

    method HeldMs(host: string, now: int) returns (left: nat)
      modifies `heldUntil
      ensures left == HeldLeft(old(heldUntil), host, now)
      ensures heldUntil == WithoutExpired(old(heldUntil), host, now)
    {
      if host !in heldUntil {
        assert heldUntil - {host} == heldUntil;
        return 0;
      }
      var rest := heldUntil[host] - now;
      if rest <= 0 {
        heldUntil := heldUntil - {host};
        return 0;
      }
      return rest;
    }

    method Hold(host: string, retryAfter: Option<nat>, now: nat)
      modifies `heldUntil
      ensures HeldAsNamed(old(heldUntil), heldUntil, host, retryAfter, now)
      ensures heldUntil == Held(old(heldUntil), host, retryAfter, now)
    {
      var ms := if retryAfter.Some? then retryAfter.value * 1000 else DEFAULT_RETRY_AFTER_MS;
      if ms < TimingConstants.MIN_RATE_LIMIT_RETRY_MS { ms := TimingConstants.MIN_RATE_LIMIT_RETRY_MS; }
      if ms > TimingConstants.MAX_RATE_LIMIT_RETRY_MS { ms := TimingConstants.MAX_RATE_LIMIT_RETRY_MS; }
      var end := now + ms;
      if host in heldUntil && heldUntil[host] > end { end := heldUntil[host]; }
      if host !in heldUntil && 0 > end { end := 0; }
      heldUntil := heldUntil[host := end];
    }

    /** `admit` while nothing else is admitted: the clock is `start`, and a delay may end `late`. */
    method Admit(c: Counterpart, host: string, start: int, late: nat) returns (delays: nat, at: int)
      requires Positive(c) && SortedFor(seen, c, host)
      modifies `seen
      ensures delays == (if Fits(old(seen), c, host, start) then 0 else 1)
      ensures at == start + (if delays == 0 then 0 else WaitFor(old(seen), c, host, start).ms + late)
      ensures forall i | 0 <= i < |c.limits| && c.limits[i].Short() ::
                Get(seen, Key(c, i, host)) == KeptFor(old(seen), c, i, host, at) + [at]
    {
      hide Kept, Key, WaitUpTo, PrunedUpTo, CountedUpTo;
      delays, at := 0, start;
      PruneIsInvisible(old(seen), c, host, start, c, host);
      var admitted := TryAdmit(c, host, at, at);
      if admitted {
        CountedOnce(old(seen), old(seen), c, host, at, at);
      } else {
        WaitIsExact(old(seen), c, host, start, start);
      }
      while !admitted
        invariant !admitted ==> delays == 0 && at == start && SameFrom(old(seen), seen, c, host, start)
        invariant !admitted ==> !Fits(old(seen), c, host, start)
        invariant admitted && delays == 0 ==> at == start && Fits(old(seen), c, host, start)
        invariant admitted && delays > 0 ==> delays == 1 && !Fits(old(seen), c, host, start)
        invariant admitted && delays > 0 ==> at == start + WaitFor(old(seen), c, host, start).ms + late
        invariant admitted ==> forall i | 0 <= i < |c.limits| && c.limits[i].Short() ::
                                 Get(seen, Key(c, i, host)) == KeptFor(old(seen), c, i, host, at) + [at]
        decreases !admitted
      {
        ghost var before := seen;
        SameWait(old(seen), before, c, host, start, start);
        PruneIsInvisible(before, c, host, start, c, host);
        var wait := WaitMs(c, host, at);
        delays, at := delays + 1, at + wait.ms + late;
        WaitIsExact(old(seen), c, host, start, at);
        SameWait(old(seen), seen, c, host, start, at);
        ghost var waited := seen;
        admitted := TryAdmit(c, host, at, at);
        CountedOnce(old(seen), waited, c, host, start, at);
      }
    }

    /** A request alone at the gate: refused without a limit or during a hold, else let through at `at`. */
    method Https(host: string, declared: Option<Counterpart>, now: nat, late: nat, took: nat, answer: Answer)
      returns (reply: Reply, at: int)
      requires declared.Some? ==> Positive(declared.value) && SortedFor(seen, declared.value, host)
      modifies `seen, `heldUntil
      ensures declared.None? ==> reply == Undeclared && seen == old(seen) && heldUntil == old(heldUntil)
      ensures declared.Some? ==>
                if host in old(heldUntil) && old(heldUntil)[host] > now then
                  && reply.HeldBack? && 0 <= 1000 * reply.seconds - (old(heldUntil)[host] - now) < 1000
                  && seen == old(seen) && heldUntil == old(heldUntil)
                else
                  && reply == Sent(answer) && at >= now && Fits(old(seen), declared.value, host, at)
                  && (forall i | 0 <= i < |declared.value.limits| && declared.value.limits[i].Short() ::
                        Get(seen, Key(declared.value, i, host))
                            == KeptFor(old(seen), declared.value, i, host, at) + [at])
                  && match answer
                     case TooMany(retryAfter) =>
                       HeldAsNamed(old(heldUntil) - {host}, heldUntil, host, retryAfter, at + took)
                     case _ => heldUntil == old(heldUntil) - {host}
    {
      at := now;
      if declared.None? { return Undeclared, at; }
      var left := HeldMs(host, now);
      if left > 0 { return HeldBack((left + 999) / 1000), at; }
      var delays;
      ghost var before := seen;
      delays, at := Admit(declared.value, host, now, late);
      if delays > 0 { WaitIsExact(before, declared.value, host, now, at); }
      if answer.TooMany? { Hold(host, answer.retryAfter, at + took); }
      reply := Sent(answer);
    }
  }

  // ----- whole runs -----

  /** A call that was let through. */
  datatype Call = Call(to: Counterpart, host: string, at: int)

  /** A step at the gate, with the clock readings it makes. */
  datatype Event =
    | Ask(c: Counterpart, host: string, now: int)
    | Try(c: Counterpart, host: string, now: int, later: int)
    | Arrive(host: string, now: int)
    | TooManyAnswered(host: string, retryAfter: Option<nat>, now: int)

  datatype State = State(seen: Seen, heldUntil: map<string, int>, clock: int, calls: seq<Call>)

  function Next(s: State, e: Event): State {
    match e
    case Ask(c, host, now) => s.(seen := Pruned(s.seen, c, host, now), clock := now)
    case Try(c, host, now, later) =>
      var pruned := Pruned(s.seen, c, host, now);
      if Fits(s.seen, c, host, now) then
        s.(seen := Counted(pruned, c, host, later), clock := later, calls := s.calls + [Call(c, host, later)])
      else s.(seen := pruned, clock := now)
    case Arrive(host, now) => s.(heldUntil := WithoutExpired(s.heldUntil, host, now), clock := now)
    case TooManyAnswered(host, retryAfter, now) => s.(heldUntil := Held(s.heldUntil, host, retryAfter, now),
        clock := now)
  }

  function Run(start: int, events: seq<Event>): State {
    if events == [] then State(map[], map[], start, [])
    else Next(Run(start, events[..|events| - 1]), events[|events| - 1])
  }

  predicate Timely(s: State, e: Event) {
    s.clock <= e.now && (e.Try? ==> e.now <= e.later)
  }

  /** The clock never runs back. */
  predicate Timeline(start: int, events: seq<Event>) {
    events == [] ||
    (Timeline(start, events[..|events| - 1]) && Timely(Run(start, events[..|events| - 1]), events[|events| - 1]))
  }

  predicate Apart(c: Counterpart, d: Counterpart) {
    c == d || (c.name != d.name && '|' !in c.name && '|' !in d.name)
  }

  /** The declared counterparts: names of their own, and limits that allow calls. */
  ghost predicate Declared(cs: set<Counterpart>) {
    && (forall c, d | c in cs && d in cs :: Apart(c, d))
    && (forall c | c in cs :: Positive(c))
  }

  predicate Uses(cs: set<Counterpart>, e: Event) {
    e.Ask? || e.Try? ==> e.c in cs
  }

  /** A call of `c` to `g` counts in the window of limit `i` of `d` for `h`. */
  predicate Shares(c: Counterpart, g: string, d: Counterpart, i: nat, h: string)
    requires i < |d.limits|
  {
    c == d && (d.limits[i].perHost ==> g == h)
  }

  /** When the calls of one window were let through. */
  function Times(calls: seq<Call>, d: Counterpart, i: nat, h: string): seq<int>
    requires i < |d.limits|
  {
    if calls == [] then []
    else
      var last := calls[|calls| - 1];
      Times(calls[..|calls| - 1], d, i, h) + (if Shares(last.to, last.host, d, i, h) then [last.at] else [])
  }

  lemma {:induction false} KeptAgain(times: seq<int>, window: nat, now: int, t: int)
    requires now <= t
    ensures Kept(Kept(times, window, now), window, t) == Kept(times, window, t)
  {
    if times != [] {
      var n := |times| - 1;
      KeptAgain(times[..n], window, now, t);
      var kept := Kept(times[..n], window, now);
      assert kept + [] == kept;
      if now - times[n] < window { assert (kept + [times[n]])[..|kept|] == kept; }
    }
  }

  lemma PrunedGet(seen: Seen, c: Counterpart, g: string, now: int, d: Counterpart, i: nat, h: string)
    requires Apart(c, d) && i < |d.limits| && d.limits[i].Short()
    ensures Get(Pruned(seen, c, g, now), Key(d, i, h)) ==
            if Shares(c, g, d, i, h) then KeptFor(seen, d, i, h, now) else Get(seen, Key(d, i, h))
  {
    hide Kept;
    if Shares(c, g, d, i, h) {
      assert Key(c, i, g) == Key(d, i, h);
      PrunedAt(seen, c, g, now, |c.limits|, i);
    } else {
      OtherWindow(c, g, d, i, h);
      PrunedElsewhere(seen, c, g, now, |c.limits|, Key(d, i, h));
    }
  }

  lemma CountedGet(seen: Seen, c: Counterpart, g: string, now: int, d: Counterpart, i: nat, h: string)
    requires Apart(c, d) && i < |d.limits| && d.limits[i].Short()
    ensures Get(Counted(seen, c, g, now), Key(d, i, h)) ==
            Get(seen, Key(d, i, h)) + (if Shares(c, g, d, i, h) then [now] else [])
  {
    if Shares(c, g, d, i, h) {
      assert Key(c, i, g) == Key(d, i, h);
      CountedAt(seen, c, g, now, |c.limits|, i);
    } else {
      OtherWindow(c, g, d, i, h);
      CountedElsewhere(seen, c, g, now, |c.limits|, Key(d, i, h));
    }
  }

  lemma OtherWindow(c: Counterpart, g: string, d: Counterpart, i: nat, h: string)
    requires Apart(c, d) && i < |d.limits| && !Shares(c, g, d, i, h)
    ensures forall j | 0 <= j < |c.limits| :: Key(c, j, g) != Key(d, i, h)
  {
    forall j | 0 <= j < |c.limits| ensures Key(c, j, g) != Key(d, i, h) {
      if Key(c, j, g) == Key(d, i, h) { KeyDetermines(c, j, g, d, i, h); }
    }
  }

  /** From `from` on both remember the same calls for every window of `d`. */
  ghost predicate SameFrom(a: Seen, b: Seen, d: Counterpart, h: string, from: int) {
    forall i, t | 0 <= i < |d.limits| && d.limits[i].Short() && from <= t ::
        KeptFor(a, d, i, h, t) == KeptFor(b, d, i, h, t)
  }

  /** Forgetting what is out of the window changes no later decision, of this counterpart or another. */
  lemma PruneIsInvisible(seen: Seen, c: Counterpart, g: string, now: int, d: Counterpart, h: string)
    requires Apart(c, d)
    ensures SameFrom(seen, Pruned(seen, c, g, now), d, h, now)
  {
    hide Key, PrunedUpTo;
    forall i, t | 0 <= i < |d.limits| && d.limits[i].Short() && now <= t
      ensures KeptFor(seen, d, i, h, t) == KeptFor(Pruned(seen, c, g, now), d, i, h, t)
    {
      PrunedGet(seen, c, g, now, d, i, h);
      KeptAgain(Get(seen, Key(d, i, h)), d.limits[i].Window(), now, t);
    }
  }

  lemma SameWait(a: Seen, b: Seen, d: Counterpart, h: string, from: int, t: int)
    requires SameFrom(a, b, d, h, from) && from <= t
    ensures WaitFor(a, d, h, t) == WaitFor(b, d, h, t) && Fits(a, d, h, t) == Fits(b, d, h, t)
  {
    SameWaitUpTo(a, b, d, h, from, t, |d.limits|);
  }

  lemma {:induction false} SameWaitUpTo(a: Seen, b: Seen, d: Counterpart, h: string, from: int, t: int, n: nat)
    requires SameFrom(a, b, d, h, from) && from <= t && n <= |d.limits|
    ensures WaitUpTo(a, d, h, t, n) == WaitUpTo(b, d, h, t, n)
  {
    hide Kept, Key;
    if n > 0 { SameWaitUpTo(a, b, d, h, from, t, n - 1); }
  }

  lemma CountedOnce(first: Seen, seen: Seen, c: Counterpart, host: string, from: int, at: int)
    requires SameFrom(first, seen, c, host, from) && from <= at
    ensures forall i | 0 <= i < |c.limits| && c.limits[i].Short() ::
              Get(Counted(Pruned(seen, c, host, at), c, host, at), Key(c, i, host))
                  == KeptFor(first, c, i, host, at) + [at]
  {
    hide Kept, Key, PrunedUpTo, CountedUpTo;
    forall i | 0 <= i < |c.limits| && c.limits[i].Short()
      ensures Get(Counted(Pruned(seen, c, host, at), c, host, at), Key(c, i, host))
              == KeptFor(first, c, i, host, at) + [at]
    {
      PrunedGet(seen, c, host, at, c, i, host);
      CountedGet(Pruned(seen, c, host, at), c, host, at, c, i, host);
    }
  }

  // ----- every window holds at most its number of calls -----

  /**
   * `kept` is the end of the log, what is missing is out of the window, and `max` apart in the log is a window apart.
   */
  ghost predicate TracksLog(log: seq<int>, kept: seq<int>, limit: Limit, clock: int) {
    && Sorted(log) && (forall t | t in log :: t <= clock)
    && |kept| <= |log| && kept == log[|log| - |kept|..]
    && (forall k | 0 <= k < |log| - |kept| :: clock - log[k] >= limit.Window())
    && Spaced(log, limit)
  }

  ghost predicate Spaced(log: seq<int>, limit: Limit) {
    forall j, k | 0 <= j && j + limit.max <= k < |log| :: log[k] - log[j] >= limit.Window()
  }

  ghost predicate Tracks(s: State, d: Counterpart, i: nat, h: string)
    requires i < |d.limits|
  {
    TracksLog(Times(s.calls, d, i, h), Get(s.seen, Key(d, i, h)), d.limits[i], s.clock)
  }

  lemma TimePasses(log: seq<int>, kept: seq<int>, limit: Limit, clock: int, now: int)
    requires TracksLog(log, kept, limit, clock) && clock <= now
    ensures TracksLog(log, kept, limit, now)
  {
  }

  lemma PruneTracks(log: seq<int>, kept: seq<int>, limit: Limit, now: int)
    requires TracksLog(log, kept, limit, now)
    ensures TracksLog(log, Kept(kept, limit.Window(), now), limit, now)
  {
    hide Kept;
    assert forall k | 0 <= k < |kept| :: kept[k] == log[|log| - |kept| + k];
    KeptIsEnd(kept, limit.Window(), now);
  }

  lemma CountTracks(log: seq<int>, kept: seq<int>, limit: Limit, now: int, later: int)
    requires TracksLog(log, kept, limit, now) && now <= later && |kept| < limit.max
    ensures TracksLog(log + [later], kept + [later], limit, later)
  {
    hide Sorted, Spaced;
    var grown, held := log + [later], kept + [later];
    SortedMore(log, later);
    assert grown[|grown| - |held|..] == held;
    assert forall k | 0 <= k < |grown| - |held| :: grown[k] == log[k];
    SpacedMore(log, kept, limit, now, later);
  }

  lemma SortedMore(log: seq<int>, later: int)
    requires Sorted(log) && forall t | t in log :: t <= later
    ensures Sorted(log + [later])
  {
    assert forall k | 0 <= k < |log| :: log[k] in log;
  }

  lemma SpacedMore(log: seq<int>, kept: seq<int>, limit: Limit, now: int, later: int)
    requires Spaced(log, limit) && |kept| <= |log| && |kept| < limit.max && now <= later
    requires forall k | 0 <= k < |log| - |kept| :: now - log[k] >= limit.Window()
    ensures Spaced(log + [later], limit)
  {
    var grown := log + [later];
    forall j, k | 0 <= j && j + limit.max <= k < |grown| ensures grown[k] - grown[j] >= limit.Window() {
      assert k == |log| ==> j < |log| - |kept|;
    }
  }

  lemma NextTracks(cs: set<Counterpart>, s: State, e: Event, d: Counterpart, i: nat, h: string)
    requires Declared(cs) && Uses(cs, e) && d in cs && Timely(s, e)
    requires i < |d.limits| && d.limits[i].Short() && Tracks(s, d, i, h)
    ensures Tracks(Next(s, e), d, i, h)
  {
    hide Kept, Key, Sorted, PrunedUpTo, CountedUpTo, WaitUpTo, TracksLog;
    var log, kept, limit := Times(s.calls, d, i, h), Get(s.seen, Key(d, i, h)), d.limits[i];
    TimePasses(log, kept, limit, s.clock, e.now);
    if e.Ask? || e.Try? {
      assert Apart(e.c, d);
      PrunedGet(s.seen, e.c, e.host, e.now, d, i, h);
      PruneTracks(log, kept, limit, e.now);
      if e.Try? && Fits(s.seen, e.c, e.host, e.now) {
        var pruned := Pruned(s.seen, e.c, e.host, e.now);
        var left := Get(pruned, Key(d, i, h));
        CountedGet(pruned, e.c, e.host, e.later, d, i, h);
        var calls := s.calls + [Call(e.c, e.host, e.later)];
        assert calls[..|s.calls|] == s.calls;
        if Shares(e.c, e.host, d, i, h) {
          FitsIsRoom(s.seen, e.c, e.host, e.now);
          SameKey(d, i, e.host, h);
          assert Room(s.seen, d, i, e.host, e.now);
          CountTracks(log, left, limit, e.now, e.later);
        } else {
          assert log + [] == log && left + [] == left;
          TimePasses(log, left, limit, e.now, e.later);
        }
      }
    }
  }

  lemma SameKey(d: Counterpart, i: nat, g: string, h: string)
    requires i < |d.limits| && (d.limits[i].perHost ==> g == h)
    ensures Key(d, i, g) == Key(d, i, h)
  {
  }

  lemma {:induction false} RunTracks(cs: set<Counterpart>, start: int, events: seq<Event>, d: Counterpart, i: nat,
      h: string)
    requires Declared(cs) && (forall e | e in events :: Uses(cs, e)) && d in cs && Timeline(start, events)
    requires i < |d.limits| && d.limits[i].Short()
    ensures Tracks(Run(start, events), d, i, h)
    decreases |events|
  {
    hide Kept, Key;
    if events != [] {
      var n := |events| - 1;
      RunTracks(cs, start, events[..n], d, i, h);
      NextTracks(cs, Run(start, events[..n]), events[n], d, i, h);
    }
  }

  /** The times in `[from, from + length)`. */
  function Within(times: seq<int>, from: int, length: nat): seq<int> {
    if times == [] then []
    else
      var last := times[|times| - 1];
      Within(times[..|times| - 1], from, length) + (if from <= last < from + length then [last] else [])
  }

  lemma WithinMore(times: seq<int>, from: int, length: nat)
    ensures |Within(times, from, length)| ==
            if times == [] then 0
            else |Within(times[..|times| - 1], from, length)| + (if from <= times[|times| - 1] < from + length then 1
                else 0)
  {
  }

  /** In a sorted list they stand together. */
  lemma {:induction false} WithinIsSlice(times: seq<int>, from: int, length: nat) returns (a: nat, b: nat)
    requires Sorted(times)
    ensures a <= b <= |times| && |Within(times, from, length)| == b - a
    ensures forall k | a <= k < b :: from <= times[k] < from + length
    ensures a < b ==> forall k | b <= k < |times| :: times[k] >= from + length
  {
    hide Within;
    WithinMore(times, from, length);
    if times == [] { return 0, 0; }
    var n := |times| - 1;
    a, b := WithinIsSlice(times[..n], from, length);
    assert forall k | 0 <= k < n :: times[..n][k] == times[k] <= times[n];
    if a < b { assert from <= times[a] <= times[n]; }
    assert a < b < n ==> times[n] >= times[b] >= from + length;
    if from <= times[n] < from + length {
      if a == b { return n, n + 1; }
      b := n + 1;
    }
  }

  /** No window of the seconds a limit names, up to an hour, ever holds more than its number of calls. */
  lemma WindowSafety(cs: set<Counterpart>, start: int, events: seq<Event>, d: Counterpart, i: nat, h: string, from: int)
    requires Declared(cs) && (forall e | e in events :: Uses(cs, e)) && d in cs && Timeline(start, events)
    requires i < |d.limits| && d.limits[i].seconds <= 3600
    ensures |Within(Times(Run(start, events).calls, d, i, h), from, 1000 * d.limits[i].seconds)| <= d.limits[i].max
  {
    hide Key, Kept, Times, Run, Timeline, Within;
    RunTracks(cs, start, events, d, i, h);
    var log := Times(Run(start, events).calls, d, i, h);
    var a, b := WithinIsSlice(log, from, d.limits[i].Window());
    assert a < b ==> log[b - 1] - log[a] < d.limits[i].Window();
  }

  /** In a list with just its last `m` times in the span, the span holds `m`. */
  lemma {:induction false} WithinIsEnd(times: seq<int>, from: int, length: nat, m: nat)
    requires m <= |times|
    requires forall k | 0 <= k < |times| - m :: times[k] < from
    requires forall k | |times| - m <= k < |times| :: from <= times[k] < from + length
    ensures |Within(times, from, length)| == m
  {
    hide Within;
    WithinMore(times, from, length);
    if times != [] {
      var n := |times| - 1;
      assert m == 0 ==> times[n] < from;
      assert m > 0 ==> from <= times[n] < from + length;
      WithinIsEnd(times[..n], from, length, if m == 0 then 0 else m - 1);
    }
  }

  /** After any run a call fits exactly when every window that ends now holds fewer calls than its limit allows. */
  lemma FitsIffRoomInWindows(cs: set<Counterpart>, start: int, events: seq<Event>, d: Counterpart, h: string, now: int)
    requires Declared(cs) && (forall e | e in events :: Uses(cs, e)) && d in cs && Timeline(start, events)
    requires Run(start, events).clock <= now
    ensures Fits(Run(start, events).seen, d, h, now) <==>
            forall i | 0 <= i < |d.limits| && d.limits[i].seconds <= 3600 ::
              var length := 1000 * d.limits[i].seconds;
              |Within(Times(Run(start, events).calls, d, i, h), now - length + 1, length)| < d.limits[i].max
  {
    hide Key, Kept, Times, Run, Timeline, WaitUpTo, Within, TracksLog;
    var s := Run(start, events);
    FitsIsRoom(s.seen, d, h, now);
    forall i | 0 <= i < |d.limits| && d.limits[i].seconds <= 3600
      ensures var length := 1000 * d.limits[i].seconds;
              Room(s.seen, d, i, h, now) <==>
              |Within(Times(s.calls, d, i, h), now - length + 1, length)| < d.limits[i].max
    {
      RunTracks(cs, start, events, d, i, h);
      KeptIsWindow(Times(s.calls, d, i, h), Get(s.seen, Key(d, i, h)), d.limits[i], s.clock, now);
    }
  }

  lemma KeptIsWindow(log: seq<int>, kept: seq<int>, limit: Limit, clock: int, now: int)
    requires TracksLog(log, kept, limit, clock) && clock <= now
    ensures var length := 1000 * limit.seconds;
            |Kept(kept, limit.Window(), now)| == |Within(log, now - length + 1, length)|
  {
    hide Kept, Within, Spaced;
    TimePasses(log, kept, limit, clock, now);
    PruneTracks(log, kept, limit, now);
    var left := Kept(kept, limit.Window(), now);
    KeptInWindow(kept, limit.Window(), now);
    forall k | |log| - |left| <= k < |log| ensures now - log[k] < limit.Window() && log[k] <= now {
      assert left[k - (|log| - |left|)] == log[k] && log[k] in left && log[k] in log;
    }
    WithinIsEnd(log, now - limit.Window() + 1, limit.Window(), |left|);
  }

  /** In every reachable state a call that must wait fits exactly from 1 ms before its wait is over. */
  lemma ReachableWaitIsExact(cs: set<Counterpart>, start: int, events: seq<Event>, d: Counterpart, h: string, now: int,
      t: int)
    requires Declared(cs) && (forall e | e in events :: Uses(cs, e)) && d in cs && Timeline(start, events)
    requires now <= t && !Fits(Run(start, events).seen, d, h, now)
    ensures var seen := Run(start, events).seen;
            && WaitFor(seen, d, h, now).Ms? && WaitFor(seen, d, h, now).ms >= 2
            && (Fits(seen, d, h, t) <==> t >= now + WaitFor(seen, d, h, now).ms - 1)
  {
    hide Key, Kept, Times, Run, Timeline, WaitUpTo;
    var seen := Run(start, events).seen;
    forall i | 0 <= i < |d.limits| && d.limits[i].Short() ensures Sorted(Get(seen, Key(d, i, h))) {
      RunTracks(cs, start, events, d, i, h);
    }
    WaitIsExact(seen, d, h, now, t);
  }

  /** A refused call counts nothing: no later decision, of any counterpart, differs. */
  lemma RefusedCountsNothing(cs: set<Counterpart>, s: State, e: Event, d: Counterpart, h: string, t: int)
    requires Declared(cs) && Uses(cs, e) && d in cs && e.now <= t
    requires e.Try? ==> !Fits(s.seen, e.c, e.host, e.now)
    ensures Next(s, e).calls == s.calls
    ensures WaitFor(Next(s, e).seen, d, h, t) == WaitFor(s.seen, d, h, t)
  {
    hide Key, Kept, WaitUpTo, PrunedUpTo;
    if e.Try? || e.Ask? {
      PruneIsInvisible(s.seen, e.c, e.host, e.now, d, h);
      SameWait(s.seen, Pruned(s.seen, e.c, e.host, e.now), d, h, e.now, t);
    }
  }

  // ----- holds -----

  /** The length of a hold, in numbers, and the moment from which on the host is free again. */
  lemma HoldLength(until: map<string, int>, host: string, retryAfter: Option<nat>, now: nat, t: int)
    ensures var after := Held(until, host, retryAfter, now);
            && HeldAsNamed(until, after, host, retryAfter, now)
            && (HeldLeft(after, host, t) == 0 <==> t >= after[host])
            && (t < after[host] ==> t + HeldLeft(after, host, t) == after[host])
  {
  }

  /** A 429 holds its host from 5 s to an hour, and never for less than an earlier one. */
  lemma HoldIsBounded(until: map<string, int>, host: string, retryAfter: Option<nat>, now: nat)
    ensures var before, after := HeldLeft(until, host, now), HeldLeft(Held(until, host, retryAfter, now), host, now);
            && after >= before && after >= TimingConstants.MIN_RATE_LIMIT_RETRY_MS
            && (after > before ==> after <= TimingConstants.MAX_RATE_LIMIT_RETRY_MS)
            && (forall other | other != host ::
                HeldLeft(Held(until, host, retryAfter, now), other, now) == HeldLeft(until, other, now))
  {
  }

  /**
   * While a hold lasts its end never comes closer: a host held until `end` is held before `end` in every later state.
   */
  lemma {:induction false} HoldNeverShrinks(start: int, events: seq<Event>, m: nat, host: string, end: int)
    requires Timeline(start, events) && m <= |events|
    requires host in Run(start, events[..m]).heldUntil && Run(start, events[..m]).heldUntil[host] >= end
    ensures var s := Run(start, events); s.clock < end ==> host in s.heldUntil && s.heldUntil[host] >= end
    decreases |events|
  {
    hide WaitFor, Pruned, Counted;
    if m == |events| {
      assert events[..m] == events;
    } else {
      var n := |events| - 1;
      assert events[..n][..m] == events[..m];
      HoldNeverShrinks(start, events[..n], m, host, end);
    }
  }

  /** No host is held for more than an hour ahead. */
  lemma {:induction false} HoldsStayBounded(start: int, events: seq<Event>, host: string)
    requires Timeline(start, events) && start >= 0
    ensures var s := Run(start, events);
            s.clock >= start && HeldLeft(s.heldUntil, host, s.clock) <= TimingConstants.MAX_RATE_LIMIT_RETRY_MS
    decreases |events|
  {
    hide WaitFor, Pruned, Counted;
    if events != [] { HoldsStayBounded(start, events[..|events| - 1], host); }
  }
}
