/** The speed of a scene: one byte of each page of the scene's parameter, patched in place. */
module SceneSpeed {
  import opened BleFrame
  import opened Options

  /** One entry of the speed configuration. A page without levels has no `moveIn`. */
  datatype Entry = Entry(page: int, moveIn: Option<seq<int>>)

  /** The level that the first entry of a page declares, as the byte a buffer stores for it. */
  function Speed(config: seq<Entry>, page: nat, level: int): Option<Byte> {
    if config == [] then None
    else if config[0].page != page then Speed(config[1..], page, level)
    else match config[0].moveIn
      case Some(levels) => if 0 <= level < |levels| then Some((levels[level] % 256) as Byte) else None
      case None => None
  }

  /** The `find` over the entries. */
  method FindSpeed(config: seq<Entry>, page: nat, level: int) returns (speed: Option<Byte>)
    ensures speed == Speed(config, page, level)
  {
    var k := 0;
    while k < |config| && config[k].page != page
      invariant 0 <= k <= |config|
      invariant Speed(config, page, level) == Speed(config[k..], page, level)
    {
      assert config[k..][1..] == config[k + 1..];
      k := k + 1;
    }
    if k < |config| && config[k].moveIn.Some? && 0 <= level < |config[k].moveIn.value| {
      return Some((config[k].moveIn.value[level] % 256) as Byte);
    }
    return None;
  }

  // ----- the page walk -----

  function Length(b: seq<Byte>, offset: nat): nat {
    if offset < |b| then b[offset] as int else 0
  }

  /** Page `page` stands at `offset`: counted by the first byte, and whole. */
  predicate HasPage(b: seq<Byte>, page: nat, offset: nat) {
    page < Length(b, 0) && offset < |b| && offset + 1 + Length(b, offset) <= |b|
  }

  /** Where the length bytes stand, from page `page` at `offset` on. */
  function Walk(b: seq<Byte>, page: nat, offset: nat): (at: seq<nat>)
    ensures forall k | 0 <= k < |at| :: offset <= at[k] && at[k] + 1 + Length(b, at[k]) <= |b|
    ensures forall j, k | 0 <= j < k < |at| :: at[j] + 1 + Length(b, at[j]) <= at[k]
    decreases |b| - offset
  {
    if HasPage(b, page, offset) then [offset] + Walk(b, page + 1, offset + 1 + Length(b, offset)) else []
  }

  function Pages(b: seq<Byte>): seq<nat> {
    Walk(b, 0, 1)
  }

  /** Byte `i` holds the speed of the page at `offset`: the fifth byte from the end of a page that has five. */
  predicate Holds(b: seq<Byte>, offset: nat, i: int) {
    5 <= Length(b, offset) && i == offset + 1 + (Length(b, offset) - 5)
  }

  // ----- the patch -----

  function PatchPage(b: seq<Byte>, config: seq<Entry>, level: int, page: nat, offset: nat): (r: seq<Byte>)
    requires HasPage(b, page, offset)
    ensures |r| == |b|
  {
    var speed, position := Speed(config, page, level), offset + 1 + (Length(b, offset) - 5);
    if speed.Some? && offset < position < offset + 1 + Length(b, offset) then b[position := speed.value] else b
  }

  function PatchFrom(b: seq<Byte>, config: seq<Entry>, level: int, page: nat, offset: nat): seq<Byte>
    decreases |b| - offset
  {
    if HasPage(b, page, offset) then
      PatchFrom(PatchPage(b, config, level, page, offset), config, level, page + 1, offset + 1 + Length(b, offset))
    else b
  }

  function WithSpeed(b: seq<Byte>, config: seq<Entry>, level: int): seq<Byte> {
    PatchFrom(b, config, level, 0, 1)
  }

  /** The patch of the decoded parameter; without a readable configuration nothing changes. */
  method ApplySceneSpeed(bytes: array<Byte>, level: int, speedConfig: Option<seq<Entry>>)
    modifies bytes
    ensures bytes[..] == match speedConfig
              case Some(config) => WithSpeed(old(bytes[..]), config, level)
              case None => old(bytes[..])
  {
    if speedConfig.None? || bytes.Length == 0 { return; }
    var config := speedConfig.value;
    if config == [] {
      NoEntries(bytes[..], level, 0, 1);
      return;
    }
    var pageCount := bytes[0] as int;
    var offset, page := 1, 0;
    hide PatchPage;
    while page < pageCount && offset < bytes.Length
      invariant 1 <= offset && 0 <= page && Length(bytes[..], 0) == pageCount
      invariant WithSpeed(old(bytes[..]), config, level) == PatchFrom(bytes[..], config, level, page, offset)
      decreases bytes.Length - offset
    {
      var pageLen := bytes[offset] as int;
      if offset + 1 + pageLen > bytes.Length { break; }
      ApplyPageSpeed(bytes, config, level, page, offset);
      page, offset := page + 1, offset + 1 + pageLen;
    }
  }

  /** The body of the loop: the speed byte of one page. */
  method ApplyPageSpeed(bytes: array<Byte>, config: seq<Entry>, level: int, page: nat, offset: nat)
    requires 1 <= offset && HasPage(bytes[..], page, offset)
    modifies bytes
    ensures bytes[..] == PatchPage(old(bytes[..]), config, level, page, offset)
    ensures bytes[0] == old(bytes[0])
  {
    hide Speed;
    var pageLen := bytes[offset] as int;
    var speed := FindSpeed(config, page, level);
    if speed.Some? {
      var position := offset + 1 + (pageLen - 5);
      if offset < position < offset + 1 + pageLen {
        bytes[position] := speed.value;
      }
    }
  }

  lemma {:induction false} NoEntries(b: seq<Byte>, level: int, page: nat, offset: nat)
    ensures PatchFrom(b, [], level, page, offset) == b
    decreases |b| - offset
  {
    if HasPage(b, page, offset) { NoEntries(b, level, page + 1, offset + 1 + Length(b, offset)); }
  }

  // ----- what the patch does -----

  /** The level of a page, or what its speed byte held. */
  function Shown(config: seq<Entry>, page: nat, level: int, before: Byte): Byte {
    match Speed(config, page, level) case Some(v) => v case None => before
  }

  /** One page: its speed byte at most, so the rest of the walk is the same. */
  lemma OnePage(b: seq<Byte>, config: seq<Entry>, level: int, page: nat, offset: nat)
    requires 1 <= offset && HasPage(b, page, offset)
    ensures var p, next := PatchPage(b, config, level, page, offset), offset + 1 + Length(b, offset);
            && |p| == |b| && Walk(p, page + 1, next) == Walk(b, page + 1, next)
            && (forall i | 0 <= i < |b| && !Holds(b, offset, i) :: p[i] == b[i])
            && (forall i: nat | next <= i < |b| :: p[i] == b[i] && Length(p, i) == Length(b, i))
            && (forall i | 0 <= i < |b| && Holds(b, offset, i) ::
                  p[i] == Shown(config, page, level, b[i]))
  {
    hide Speed;
    SameWalk(b, PatchPage(b, config, level, page, offset), page + 1, offset + 1 + Length(b, offset));
  }

  /** From `offset` on: the bytes up to it stay, the walk stays, and so does every length byte of the walk. */
  lemma {:induction false} PatchKeepsWalk(b: seq<Byte>, config: seq<Entry>, level: int, page: nat, offset: nat)
    requires 1 <= offset
    ensures var r := PatchFrom(b, config, level, page, offset);
            && |r| == |b| && (forall i | 0 <= i < |b| && i <= offset :: r[i] == b[i])
            && Walk(r, page, offset) == Walk(b, page, offset)
            && (forall o | o in Walk(b, page, offset) :: r[o] == b[o])
    decreases |b| - offset
  {
    hide PatchPage, Speed, Shown, Length, Walk;
    if HasPage(b, page, offset) {
      var p, next := PatchPage(b, config, level, page, offset), offset + 1 + Length(b, offset);
      OnePage(b, config, level, page, offset);
      NotHeldBefore(b, offset);
      PatchKeepsWalk(p, config, level, page + 1, next);
      SameStep(b, PatchFrom(b, config, level, page, offset), page, offset);
    } else {
      NoPage(b, page, offset);
    }
  }

  lemma NotHeldBefore(b: seq<Byte>, offset: nat)
    ensures forall i: nat | i <= offset :: !Holds(b, offset, i)
  {
  }

  lemma NoPage(b: seq<Byte>, page: nat, offset: nat)
    requires !HasPage(b, page, offset)
    ensures Walk(b, page, offset) == []
  {
  }

  lemma SameStep(b: seq<Byte>, r: seq<Byte>, page: nat, offset: nat)
    requires HasPage(b, page, offset) && |r| == |b| && r[0] == b[0] && r[offset] == b[offset]
    requires var next := offset + 1 + Length(b, offset); Walk(r, page + 1, next) == Walk(b, page + 1, next)
    ensures Walk(r, page, offset) == Walk(b, page, offset)
            == [offset] + Walk(b, page + 1, offset + 1 + Length(b, offset))
  {
  }

  /** The speed byte of page `page + k`. */
  lemma {:induction false} PatchWrites(b: seq<Byte>, config: seq<Entry>, level: int, page: nat, offset: nat, k: nat,
      i: nat)
    requires 1 <= offset && k < |Walk(b, page, offset)| && Holds(b, Walk(b, page, offset)[k], i)
    ensures var r := PatchFrom(b, config, level, page, offset);
            |r| == |b| && i < |b| && r[i] == Shown(config, page + k, level, b[i])
    decreases |b| - offset
  {
    hide PatchPage, Shown, Holds, Length, HasPage, Walk, PatchFrom;
    WalkSteps(b, config, level, page, offset);
    var p, next := PatchPage(b, config, level, page, offset), offset + 1 + Length(b, offset);
    OnePage(b, config, level, page, offset);
    if k == 0 {
      HeldInside(b, offset, i);
      PatchKeepsWalk(p, config, level, page + 1, next);
    } else {
      var o := Walk(b, page, offset)[k];
      assert o == Walk(p, page + 1, next)[k - 1];
      HeldInside(b, o, i);
      SameHeld(b, p, o, i);
      PatchWrites(p, config, level, page + 1, next, k - 1, i);
    }
  }

  /** A walk that is not over takes its page first, and the patch goes on behind it. */
  lemma WalkSteps(b: seq<Byte>, config: seq<Entry>, level: int, page: nat, offset: nat)
    requires Walk(b, page, offset) != []
    ensures HasPage(b, page, offset) && offset < |b|
    ensures Walk(b, page, offset) == [offset] + Walk(b, page + 1, offset + 1 + Length(b, offset))
    ensures PatchFrom(b, config, level, page, offset) ==
            PatchFrom(PatchPage(b, config, level, page, offset), config, level, page + 1,
                offset + 1 + Length(b, offset))
  {
  }

  lemma HeldInside(b: seq<Byte>, offset: nat, i: nat)
    requires Holds(b, offset, i)
    ensures offset < i < offset + 1 + Length(b, offset)
  {
  }

  lemma SameHeld(b: seq<Byte>, p: seq<Byte>, offset: nat, i: nat)
    requires Length(b, offset) == Length(p, offset)
    ensures Holds(b, offset, i) <==> Holds(p, offset, i)
  {
  }

  /** Every other byte. */
  lemma {:induction false} PatchLeaves(b: seq<Byte>, config: seq<Entry>, level: int, page: nat, offset: nat, i: nat)
    requires 1 <= offset && i < |b| && (forall o | o in Walk(b, page, offset) :: !Holds(b, o, i))
    ensures var r := PatchFrom(b, config, level, page, offset); |r| == |b| && r[i] == b[i]
    decreases |b| - offset
  {
    hide PatchPage, Speed;
    if HasPage(b, page, offset) {
      var p, next := PatchPage(b, config, level, page, offset), offset + 1 + Length(b, offset);
      OnePage(b, config, level, page, offset);
      var later := Walk(p, page + 1, next);
      assert Walk(b, page, offset) == [offset] + later && offset in Walk(b, page, offset);
      forall o | o in later ensures !Holds(p, o, i) { assert o in Walk(b, page, offset); }
      PatchLeaves(p, config, level, page + 1, next, i);
    }
  }

  /** The walk reads the first byte and what stands from its offset on. */
  lemma {:induction false} SameWalk(b: seq<Byte>, r: seq<Byte>, page: nat, offset: nat)
    requires |r| == |b| && Length(r, 0) == Length(b, 0) && (forall i | offset <= i < |b| :: r[i] == b[i])
    ensures Walk(r, page, offset) == Walk(b, page, offset)
    decreases |b| - offset
  {
    if HasPage(b, page, offset) { SameWalk(b, r, page + 1, offset + 1 + Length(b, offset)); }
  }

  /** `r` is `b` but for the speed bytes of the pages at `at` that declare the level. */
  ghost predicate Patched(b: seq<Byte>, at: seq<nat>, config: seq<Entry>, level: int, r: seq<Byte>) {
    && |r| == |b|
    && (forall k, i | 0 <= k < |at| && 0 <= i < |b| && Holds(b, at[k], i) ::
          r[i] == Shown(config, k, level, b[i]))
    && (forall i | 0 <= i < |b| && (forall o | o in at :: !Holds(b, o, i)) :: r[i] == b[i])
  }

  /** The patch writes the speed bytes that declare the level and nothing else; it walks the same pages after. */
  lemma OnlySpeedBytes(b: seq<Byte>, config: seq<Entry>, level: int)
    ensures var r := WithSpeed(b, config, level);
            && Patched(b, Pages(b), config, level, r)
            && Pages(r) == Pages(b)
            && (b != [] ==> r[0] == b[0])
            && (forall o | o in Pages(b) :: r[o] == b[o])
  {
    hide PatchFrom, Speed, Walk, Holds;
    PatchKeepsWalk(b, config, level, 0, 1);
    forall k, i: nat | 0 <= k < |Pages(b)| && i < |b| && Holds(b, Pages(b)[k], i)
      ensures WithSpeed(b, config, level)[i] == Shown(config, k, level, b[i])
    {
      PatchWrites(b, config, level, 0, 1, k, i);
    }
    forall i: nat | i < |b| && (forall o | o in Pages(b) :: !Holds(b, o, i))
      ensures WithSpeed(b, config, level)[i] == b[i]
    {
      PatchLeaves(b, config, level, 0, 1, i);
    }
  }

  /** Page `k` declares `first` but not `second`, and `first` changes its speed byte `i`. */
  ghost predicate KeepsFirst(b: seq<Byte>, config: seq<Entry>, first: int, second: int, k: nat, i: nat) {
    && k < |Pages(b)| && i < |b| && Holds(b, Pages(b)[k], i)
    && Speed(config, k, second).None? && Speed(config, k, first).Some? && Speed(config, k, first).value != b[i]
  }

  /** Two levels in turn are the last one alone, exactly when no page keeps the first one's byte. */
  lemma LastLevelWins(b: seq<Byte>, config: seq<Entry>, first: int, second: int)
    ensures WithSpeed(WithSpeed(b, config, first), config, second) == WithSpeed(b, config, second)
       <==> forall k, i: nat :: !KeepsFirst(b, config, first, second, k, i)
  {
    hide WithSpeed, Pages, Speed, KeepsFirst;
    var twice := WithSpeed(WithSpeed(b, config, first), config, second);
    var alone := WithSpeed(b, config, second);
    forall i: nat | i < |b| ensures |twice| == |alone| == |b|
                              && (twice[i] != alone[i] <==> exists k: nat ::
                                  KeepsFirst(b, config, first, second, k, i)) {
      OneByte(b, config, first, second, i);
    }
    if k: nat, i: nat :| KeepsFirst(b, config, first, second, k, i) {
      KeptIsInside(b, config, first, second, k, i);
      OneByte(b, config, first, second, i);
      assert twice[i] != alone[i];
    } else {
      OnlySpeedBytes(b, config, first);
      OnlySpeedBytes(WithSpeed(b, config, first), config, second);
      OnlySpeedBytes(b, config, second);
    }
  }

  lemma KeptIsInside(b: seq<Byte>, config: seq<Entry>, first: int, second: int, k: nat, i: nat)
    requires KeepsFirst(b, config, first, second, k, i)
    ensures i < |b|
  {
  }

  lemma OneByte(b: seq<Byte>, config: seq<Entry>, first: int, second: int, i: nat)
    requires i < |b|
    ensures var twice, alone := WithSpeed(WithSpeed(b, config, first), config, second), WithSpeed(b, config, second);
            && |twice| == |alone| == |b|
            && (twice[i] != alone[i] <==> exists k: nat :: KeepsFirst(b, config, first, second, k, i))
  {
    hide WithSpeed, Pages, Speed;
    var once := WithSpeed(b, config, first);
    var twice, alone := WithSpeed(once, config, second), WithSpeed(b, config, second);
    OnlySpeedBytes(b, config, first);
    OnlySpeedBytes(once, config, second);
    OnlySpeedBytes(b, config, second);
    if k: nat :| k < |Pages(b)| && Holds(b, Pages(b)[k], i) {
      assert Pages(b)[k] in Pages(b) && Holds(once, Pages(once)[k], i);
      forall j: nat | KeepsFirst(b, config, first, second, j, i) ensures j == k { OneOwner(b, i, j, k); }
      assert twice[i] != alone[i] <==> KeepsFirst(b, config, first, second, k, i);
    } else {
      forall o | o in Pages(once) ensures !Holds(once, o, i) && !Holds(b, o, i) {
        var k :| 0 <= k < |Pages(b)| && Pages(b)[k] == o;
      }
    }
  }

  lemma OneOwner(b: seq<Byte>, i: nat, j: nat, k: nat)
    requires j < |Pages(b)| && k < |Pages(b)| && Holds(b, Pages(b)[j], i) && Holds(b, Pages(b)[k], i)
    ensures j == k
  {
    assert Pages(b) == Walk(b, 0, 1);
  }

  /** Two levels that every page with levels declares. */
  lemma InRangeLevelsOverwrite(b: seq<Byte>, config: seq<Entry>, first: int, second: int)
    requires forall k | Speed(config, k, first).Some? :: Speed(config, k, second).Some?
    ensures WithSpeed(WithSpeed(b, config, first), config, second) == WithSpeed(b, config, second)
  {
    LastLevelWins(b, config, first, second);
  }

  // ----- the same, read off the bytes and the configuration -----

  /** Where the page behind the one at `offset` stands. */
  function Behind(b: seq<Byte>, offset: nat): nat {
    offset + 1 + Length(b, offset)
  }

  /**
   * `at` are the places of the length bytes of the pages from `offset` on, each right behind the one before it: as many
   * as `count`, until a page does not fit any more.
   */
  ghost predicate ArePages(b: seq<Byte>, at: seq<nat>, offset: nat, count: int) {
    && (forall o | o in at :: o < |b| && Length(b, o) == b[o] as int && Behind(b, o) <= |b|)
    && (at != [] ==> at[0] == offset && |at| <= count)
    && (forall k | 0 < k < |at| :: at[k] == Behind(b, at[k - 1]))
    && (|at| < count ==>
          var next := if at == [] then offset else Behind(b, at[|at| - 1]); next >= |b| || Behind(b, next) > |b|)
  }

  predicate FirstOf(config: seq<Entry>, page: nat, e: nat) {
    e < |config| && config[e].page == page && forall d | 0 <= d < e :: config[d].page != page
  }

  /** What the first entry of a page makes of its speed byte. */
  ghost predicate Takes(e: Entry, level: int, before: Byte, after: Byte) {
    match e.moveIn
    case Some(levels) => if 0 <= level < |levels| then after == (levels[level] % 256) as Byte else after == before
    case None => after == before
  }

  /** A speed byte takes the level that the first entry of its page has, and stays where there is none. */
  ghost predicate Written(config: seq<Entry>, page: nat, level: int, before: Byte, after: Byte) {
    && (forall e: nat | FirstOf(config, page, e) :: Takes(config[e], level, before, after))
    && ((forall d | 0 <= d < |config| :: config[d].page != page) ==> after == before)
  }

  lemma {:induction false} SpeedOfFirst(config: seq<Entry>, page: nat, level: int, e: nat)
    requires FirstOf(config, page, e)
    ensures Speed(config, page, level) == Speed(config[e..], page, level)
  {
    if e > 0 {
      assert config[1..][e - 1..] == config[e..];
      assert forall d | 0 <= d < |config| - 1 :: config[1..][d] == config[d + 1];
      SpeedOfFirst(config[1..], page, level, e - 1);
    }
  }

  lemma {:induction false} SpeedOfNone(config: seq<Entry>, page: nat, level: int)
    requires forall d | 0 <= d < |config| :: config[d].page != page
    ensures Speed(config, page, level).None?
  {
    if config != [] { SpeedOfNone(config[1..], page, level); }
  }

  lemma FirstIsTaken(config: seq<Entry>, page: nat, level: int, before: Byte, e: nat)
    requires FirstOf(config, page, e)
    ensures Takes(config[e], level, before, Shown(config, page, level, before))
  {
    hide Takes, Speed;
    SpeedOfFirst(config, page, level, e);
    assert config[e..][0] == config[e];
    HeadIsTaken(config[e..], page, level, before);
  }

  lemma HeadIsTaken(config: seq<Entry>, page: nat, level: int, before: Byte)
    requires config != [] && config[0].page == page
    ensures Takes(config[0], level, before, Shown(config, page, level, before))
  {
  }

  lemma ShownIsWritten(config: seq<Entry>, page: nat, level: int, before: Byte)
    ensures Written(config, page, level, before, Shown(config, page, level, before))
  {
    hide Takes, FirstOf, Speed;
    forall e: nat | FirstOf(config, page, e)
      ensures e < |config| && Takes(config[e], level, before, Shown(config, page, level, before))
    {
      FirstIsTaken(config, page, level, before, e);
      FirstInside(config, page, e);
    }
    if forall d | 0 <= d < |config| :: config[d].page != page { SpeedOfNone(config, page, level); }
  }

  lemma FirstInside(config: seq<Entry>, page: nat, e: nat)
    requires FirstOf(config, page, e)
    ensures e < |config|
  {
  }

  lemma {:induction false} WalkTakes(b: seq<Byte>, page: nat, offset: nat)
    ensures ArePages(b, Walk(b, page, offset), offset, Length(b, 0) - page)
    decreases |b| - offset
  {
    hide Length;
    if HasPage(b, page, offset) {
      WalkTakes(b, page + 1, Behind(b, offset));
      hide Walk;
      TakesOneMore(b, Walk(b, page + 1, Behind(b, offset)), offset, Length(b, 0) - page);
    }
  }

  lemma TakesOneMore(b: seq<Byte>, rest: seq<nat>, offset: nat, count: int)
    requires offset < |b| && Behind(b, offset) <= |b| && count >= 1
    requires ArePages(b, rest, Behind(b, offset), count - 1)
    ensures ArePages(b, [offset] + rest, offset, count)
  {
    hide Behind;
  }

  /** In each page of at least five bytes the fifth from the end takes the level. */
  ghost predicate SpeedsWritten(b: seq<Byte>, at: seq<nat>, config: seq<Entry>, level: int, r: seq<Byte>) {
    forall k | 0 <= k < |at| && Length(b, at[k]) >= 5 ::
      var i := Behind(b, at[k]) - 5;
      i < |b| && i < |r| && Written(config, k, level, b[i], r[i])
  }

  /** What changes is the fifth byte from the end of some page of at least five bytes. */
  ghost predicate OthersStay(b: seq<Byte>, at: seq<nat>, r: seq<Byte>) {
    |r| == |b| && forall i | 0 <= i < |b| && r[i] != b[i] :: SpeedByteOf(b, at, i)
  }

  ghost predicate SpeedByteOf(b: seq<Byte>, at: seq<nat>, i: int) {
    exists o | o in at :: Length(b, o) >= 5 && i == Behind(b, o) - 5
  }

  /** What the patch writes: the speed bytes of the pages, as their first entries say, and nothing else. */
  lemma SpeedBytesWritten(b: seq<Byte>, config: seq<Entry>, level: int) returns (at: seq<nat>)
    ensures ArePages(b, at, 1, if b == [] then 0 else b[0] as int)
    ensures SpeedsWritten(b, at, config, level, WithSpeed(b, config, level))
    ensures OthersStay(b, at, WithSpeed(b, config, level))
  {
    hide WithSpeed, Written, Length, Behind, ArePages, Walk, Pages, Holds;
    at := Pages(b);
    PagesAre(b);
    forall k: nat | k < |at| && Length(b, at[k]) >= 5
      ensures var i := Behind(b, at[k]) - 5;
              && 0 <= i < |b| && |WithSpeed(b, config, level)| == |b|
              && Written(config, k, level, b[i], WithSpeed(b, config, level)[i])
    {
      PageWritten(b, config, level, k);
    }
    OtherBytesStay(b, config, level);
  }

  lemma OtherBytesStay(b: seq<Byte>, config: seq<Entry>, level: int)
    ensures OthersStay(b, Pages(b), WithSpeed(b, config, level))
  {
    hide WithSpeed, Length, Behind, Walk, Pages, Holds, SpeedByteOf, Shown;
    OnlySpeedBytes(b, config, level);
    forall i: nat | i < |b| && WithSpeed(b, config, level)[i] != b[i] ensures SpeedByteOf(b, Pages(b), i) {
      var o :| o in Pages(b) && Holds(b, o, i);
      HeldIsSpeedByte(b, Pages(b), o, i);
    }
  }

  lemma HeldIsSpeedByte(b: seq<Byte>, at: seq<nat>, o: nat, i: int)
    requires o in at && Holds(b, o, i)
    ensures SpeedByteOf(b, at, i)
  {
    HeldFromTheEnd(b, o, i);
  }

  lemma PagesAre(b: seq<Byte>)
    ensures ArePages(b, Pages(b), 1, if b == [] then 0 else b[0] as int)
  {
    WalkTakes(b, 0, 1);
  }

  lemma PageWritten(b: seq<Byte>, config: seq<Entry>, level: int, k: nat)
    requires k < |Pages(b)| && Length(b, Pages(b)[k]) >= 5
    ensures var i := Behind(b, Pages(b)[k]) - 5;
            && 0 <= i < |b| && |WithSpeed(b, config, level)| == |b|
            && Written(config, k, level, b[i], WithSpeed(b, config, level)[i])
  {
    hide WithSpeed, Written, Pages, Shown;
    var i := Behind(b, Pages(b)[k]) - 5;
    PagesAre(b);
    assert Pages(b)[k] in Pages(b);
    assert 0 <= i < |b| && Holds(b, Pages(b)[k], i);
    OnlySpeedBytes(b, config, level);
    ShownIsWritten(config, k, level, b[i]);
  }

  lemma HeldFromTheEnd(b: seq<Byte>, offset: nat, i: int)
    ensures Holds(b, offset, i) <==> Length(b, offset) >= 5 && i == Behind(b, offset) - 5
  {
  }
}
