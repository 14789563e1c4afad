/** The API answers kept of one device, under three bounds: slots per endpoint, endpoints, and bytes. */
module ResponseHistory {
  import opened Options

  const MAX_RESPONSE_ENDPOINTS := 24
  const MAX_RESPONSES_PER_ENDPOINT := 6
  const MAX_RESPONSE_BYTES_PER_DEVICE := 512 * 1024

  /** A stored answer. `body` is its serialised text, `ts` the time the ISO text stands for. */
  datatype Entry = Entry(
    ts: int, first: Option<int>, count: Option<nat>,
    endpoint: string, ok: bool, statusCode: Option<int>, body: string, bytes: nat
  )

  /** One slot of the map, which keeps its keys in the order they came. */
  datatype Bucket = Bucket(endpoint: string, entries: seq<Entry>)

  predicate Same(a: Entry, b: Entry) {
    a.ok == b.ok && a.statusCode == b.statusCode && a.body == b.body
  }

  // ----- the append, on values -----

  function Find(buckets: seq<Bucket>, endpoint: string): (k: nat)
    ensures k <= |buckets|
    ensures k < |buckets| ==> buckets[k].endpoint == endpoint
    ensures forall j | 0 <= j < k :: buckets[j].endpoint != endpoint
  {
    if buckets == [] || buckets[0].endpoint == endpoint then 0 else 1 + Find(buckets[1..], endpoint)
  }

  function FindSame(list: seq<Entry>, answer: Entry): (k: nat)
    ensures k <= |list|
    ensures k < |list| ==> Same(list[k], answer)
    ensures forall j | 0 <= j < k :: !Same(list[j], answer)
  {
    if list == [] || Same(list[0], answer) then 0 else 1 + FindSame(list[1..], answer)
  }

  function ListOf(buckets: seq<Bucket>, endpoint: string): seq<Entry> {
    var k := Find(buckets, endpoint);
    if k < |buckets| then buckets[k].entries else []
  }

  /** The entry an answer becomes: a repeated one remembers when it came first and how often. */
  function Newest(list: seq<Entry>, answer: Entry): Entry {
    var k := FindSame(list, answer);
    if k == |list| then answer
    else
      answer.(first := Some(if list[k].first.Some? then list[k].first.value else list[k].ts),
              count := Some((if list[k].count.Some? then list[k].count.value else 1) + 1))
  }

  function Without(list: seq<Entry>, k: nat): seq<Entry> {
    if k < |list| then list[..k] + list[k + 1..] else list
  }

  function LastSix(list: seq<Entry>): seq<Entry> {
    if |list| > MAX_RESPONSES_PER_ENDPOINT then list[|list| - MAX_RESPONSES_PER_ENDPOINT..] else list
  }

  function Put(buckets: seq<Bucket>, endpoint: string, list: seq<Entry>): seq<Bucket> {
    var k := Find(buckets, endpoint);
    if k < |buckets| then buckets[k := Bucket(endpoint, list)] else buckets + [Bucket(endpoint, list)]
  }

  function Merged(list: seq<Entry>, answer: Entry): seq<Entry> {
    Without(list, FindSame(list, answer)) + [Newest(list, answer)]
  }

  /** The answer in its endpoint's list, before the bounds on endpoints and bytes. */
  function Stored(buckets: seq<Bucket>, answer: Entry): seq<Bucket> {
    Put(buckets, answer.endpoint, LastSix(Merged(ListOf(buckets, answer.endpoint), answer)))
  }

  function Capped(buckets: seq<Bucket>): seq<Bucket> {
    if |buckets| > MAX_RESPONSE_ENDPOINTS then buckets[1..] else buckets
  }

  function Bytes(list: seq<Entry>): nat {
    if list == [] then 0 else Bytes(list[..|list| - 1]) + list[|list| - 1].bytes
  }

  function Total(buckets: seq<Bucket>): nat {
    if buckets == [] then 0 else Total(buckets[..|buckets| - 1]) + Bytes(buckets[|buckets| - 1].entries)
  }

  function Count(buckets: seq<Bucket>): nat {
    if buckets == [] then 0 else Count(buckets[..|buckets| - 1]) + |buckets[|buckets| - 1].entries|
  }

  /** The list's head may go: it is not the entry just stored, the only one of its endpoint. */
  predicate Evictable(bucket: Bucket, own: string) {
    bucket.entries != [] && !(bucket.endpoint == own && |bucket.entries| == 1)
  }

  /** Among the first `n` lists the one with the oldest head that may go; the first of several. */
  function OldestUpTo(buckets: seq<Bucket>, own: string, n: nat): (k: Option<nat>)
    requires n <= |buckets|
    ensures k.Some? ==> k.value < n && Evictable(buckets[k.value], own)
    ensures k.Some? ==> forall j | 0 <= j < n && Evictable(buckets[j], own) ::
                          buckets[k.value].entries[0].ts <= buckets[j].entries[0].ts
    ensures k.None? ==> forall j | 0 <= j < n :: !Evictable(buckets[j], own)
  {
    if n == 0 then None
    else
      var best := OldestUpTo(buckets, own, n - 1);
      if Evictable(buckets[n - 1], own)
         && (best.None? || buckets[n - 1].entries[0].ts < buckets[best.value].entries[0].ts)
      then Some(n - 1)
      else best
  }

  function DropHead(buckets: seq<Bucket>, k: nat): seq<Bucket>
    requires k < |buckets| && buckets[k].entries != []
  {
    if |buckets[k].entries| == 1 then buckets[..k] + buckets[k + 1..]
    else buckets[k := buckets[k].(entries := buckets[k].entries[1..])]
  }

  function Evicted(buckets: seq<Bucket>, own: string): seq<Bucket>
    decreases Count(buckets)
  {
    var k := OldestUpTo(buckets, own, |buckets|);
    if Total(buckets) > MAX_RESPONSE_BYTES_PER_DEVICE && k.Some? then
      DropHeadCounts(buckets, k.value);
      Evicted(DropHead(buckets, k.value), own)
    else buckets
  }

  function Appended(buckets: seq<Bucket>, answer: Entry): seq<Bucket> {
    Evicted(Capped(Stored(buckets, answer)), answer.endpoint)
  }

  // ----- sums -----

  lemma {:induction false} SumsSplit(buckets: seq<Bucket>, k: nat)
    requires k <= |buckets|
    ensures Total(buckets) == Total(buckets[..k]) + Total(buckets[k..])
    ensures Count(buckets) == Count(buckets[..k]) + Count(buckets[k..])
    decreases |buckets|
  {
    if k == |buckets| {
      assert buckets[..k] == buckets;
    } else {
      var n := |buckets| - 1;
      SumsSplit(buckets[..n], k);
      assert buckets[..n][..k] == buckets[..k] && buckets[..n][k..] == buckets[k..][..n - k];
    }
  }

  lemma SumsAt(buckets: seq<Bucket>, k: nat)
    requires k < |buckets|
    ensures Total(buckets) == Total(buckets[..k]) + Bytes(buckets[k].entries) + Total(buckets[k + 1..])
    ensures Count(buckets) == Count(buckets[..k]) + |buckets[k].entries| + Count(buckets[k + 1..])
  {
    SumsSplit(buckets, k + 1);
    assert buckets[..k + 1][..k] == buckets[..k];
  }

  lemma SumsReplaced(buckets: seq<Bucket>, k: nat, bucket: Bucket)
    requires k < |buckets|
    ensures Total(buckets[k := bucket]) == Total(buckets) - Bytes(buckets[k].entries) + Bytes(bucket.entries)
    ensures Count(buckets[k := bucket]) == Count(buckets) - |buckets[k].entries| + |bucket.entries|
  {
    var after := buckets[k := bucket];
    SumsAt(buckets, k);
    SumsAt(after, k);
    assert after[..k] == buckets[..k] && after[k + 1..] == buckets[k + 1..];
  }

  lemma {:induction false} BytesSplit(list: seq<Entry>, k: nat)
    requires k <= |list|
    ensures Bytes(list) == Bytes(list[..k]) + Bytes(list[k..])
    decreases |list|
  {
    if k == |list| {
      assert list[..k] == list;
    } else {
      var n := |list| - 1;
      BytesSplit(list[..n], k);
      assert list[..n][..k] == list[..k] && list[..n][k..] == list[k..][..n - k];
    }
  }

  lemma BytesWithout(list: seq<Entry>, k: nat)
    requires k < |list|
    ensures Bytes(Without(list, k)) == Bytes(list) - list[k].bytes
  {
    BytesSplit(list, k + 1);
    assert list[..k + 1][..k] == list[..k];
    BytesSplit(Without(list, k), k);
    assert Without(list, k)[..k] == list[..k] && Without(list, k)[k..] == list[k + 1..];
  }

  lemma BytesTail(list: seq<Entry>)
    requires list != []
    ensures Bytes(list[1..]) == Bytes(list) - list[0].bytes
  {
    BytesWithout(list, 0);
    assert Without(list, 0) == list[1..];
  }

  /** An eviction takes one entry and its bytes. */
  lemma DropHeadCounts(buckets: seq<Bucket>, k: nat)
    requires k < |buckets| && buckets[k].entries != []
    ensures Count(DropHead(buckets, k)) == Count(buckets) - 1
    ensures Total(DropHead(buckets, k)) == Total(buckets) - buckets[k].entries[0].bytes
  {
    var list := buckets[k].entries;
    BytesTail(list);
    if |list| == 1 {
      var after := DropHead(buckets, k);
      SumsAt(buckets, k);
      SumsSplit(after, k);
      assert after[..k] == buckets[..k] && after[k..] == buckets[k + 1..];
      assert list[1..] == [];
    } else {
      SumsReplaced(buckets, k, buckets[k].(entries := list[1..]));
    }
  }

  // ----- what an append leaves, read off the lists -----

  /**
   * One endpoint's list after an answer: a repeated answer takes over the first time and the count of its earlier copy,
   * which goes; a new one pushes out the oldest of six. All others stay, in their order.
   */
  ghost predicate GrownBy(list: seq<Entry>, answer: Entry, grown: seq<Entry>) {
    if exists e | e in list :: e.ok == answer.ok && e.statusCode == answer.statusCode && e.body == answer.body then
      exists i | 0 <= i < |list| ::
        && list[i].ok == answer.ok && list[i].statusCode == answer.statusCode && list[i].body == answer.body
        && grown == list[..i] + list[i + 1..] + [
             answer.(first := if list[i].first.Some? then list[i].first else Some(list[i].ts),
                     count := Some(if list[i].count.Some? then list[i].count.value + 1 else 2))]
    else
      grown == (if |list| == 6 then list[1..] else list) + [answer]
  }

  /** The lists after an answer, before the byte budget: a 25th endpoint pushes out the one stored first. */
  ghost predicate IsStored(before: seq<Bucket>, answer: Entry, after: seq<Bucket>) {
    if exists k | 0 <= k < |before| :: before[k].endpoint == answer.endpoint then
      && |after| == |before|
      && (forall k | 0 <= k < |before| ::
            if before[k].endpoint != answer.endpoint then after[k] == before[k]
            else after[k].endpoint == answer.endpoint && GrownBy(before[k].entries, answer, after[k].entries))
    else
      after == (if |before| == 24 then before[1..] else before) + [Bucket(answer.endpoint, [answer])]
  }

  /** The lists of `after` are ends of lists of `before`, in the same order. */
  ghost predicate TailsOf(after: seq<Bucket>, before: seq<Bucket>) {
    if before == [] then after == []
    else
      var m, n := |after| - 1, |before| - 1;
      || TailsOf(after, before[..n])
      || (after != [] && TailEndOf(after[m], before[n]) && TailsOf(after[..m], before[..n]))
  }

  predicate TailEndOf(after: Bucket, before: Bucket) {
    && after.endpoint == before.endpoint
    && |after.entries| <= |before.entries|
    && after.entries == before.entries[|before.entries| - |after.entries|..]
  }

  /** What the byte budget leaves of the lists: everything when they fit, else ends of them. */
  ghost predicate LeftOf(stored: seq<Bucket>, after: seq<Bucket>) {
    && (Total(stored) <= 512 * 1024 ==> after == stored)
    && TailsOf(after, stored)
  }

  /** The lists after an answer: it is stored, and the byte budget leaves what it does. */
  ghost predicate AfterAnswer(before: seq<Bucket>, answer: Entry, after: seq<Bucket>) {
    exists stored :: IsStored(before, answer, stored) && LeftOf(stored, after)
  }

  lemma MergedGrows(list: seq<Entry>, answer: Entry)
    requires |list| <= 6
    ensures GrownBy(list, answer, LastSix(Merged(list, answer)))
  {
    var k := FindSame(list, answer);
    if k == |list| {
      assert |list| == 6 ==> (list + [answer])[1..] == list[1..] + [answer];
    } else {
      RepeatTakesOver(list, answer, k);
    }
  }

  lemma RepeatTakesOver(list: seq<Entry>, answer: Entry, k: nat)
    requires |list| <= 6 && k == FindSame(list, answer) < |list|
    ensures Same(list[k], answer)
    ensures LastSix(Merged(list, answer)) == list[..k] + list[k + 1..] + [
              answer.(first := if list[k].first.Some? then list[k].first else Some(list[k].ts),
                      count := Some(if list[k].count.Some? then list[k].count.value + 1 else 2))]
  {
    hide Same;
  }

  /** Storing and capping do what the lists say. */
  lemma StoredIs(buckets: seq<Bucket>, answer: Entry)
    requires |buckets| <= 24 && forall k | 0 <= k < |buckets| :: |buckets[k].entries| <= 6
    requires forall i, j | 0 <= i < j < |buckets| :: buckets[i].endpoint != buckets[j].endpoint
    ensures IsStored(buckets, answer, Capped(Stored(buckets, answer)))
  {
    hide GrownBy, Merged, LastSix;
    MergedGrows(ListOf(buckets, answer.endpoint), answer);
    var k := Find(buckets, answer.endpoint);
    if k == |buckets| {
      FirstOfItsEndpoint(answer);
      assert (buckets + [Bucket(answer.endpoint, [answer])])[1..] == if buckets == [] then [] else
          buckets[1..] + [Bucket(answer.endpoint, [answer])];
    }
  }

  lemma FirstOfItsEndpoint(answer: Entry)
    ensures LastSix(Merged([], answer)) == [answer]
  {
  }

  lemma {:induction false} TailsOfSelf(buckets: seq<Bucket>)
    ensures TailsOf(buckets, buckets)
  {
    if buckets != [] { TailsOfSelf(buckets[..|buckets| - 1]); }
  }

  lemma {:induction false} TailsOfTails(a: seq<Bucket>, b: seq<Bucket>, c: seq<Bucket>)
    requires TailsOf(a, b) && TailsOf(b, c)
    ensures TailsOf(a, c)
    decreases |b| + |c|
  {
    if c != [] {
      var n := |c| - 1;
      if TailsOf(b, c[..n]) {
        TailsOfTails(a, b, c[..n]);
      } else if TailsOf(a, b[..|b| - 1]) {
        TailsOfTails(a, b[..|b| - 1], c[..n]);
      } else {
        TailsOfTails(a[..|a| - 1], b[..|b| - 1], c[..n]);
      }
    }
  }

  lemma {:induction false} DropHeadTails(buckets: seq<Bucket>, k: nat)
    requires k < |buckets| && buckets[k].entries != []
    ensures TailsOf(DropHead(buckets, k), buckets)
  {
    var n := |buckets| - 1;
    var dropped := DropHead(buckets, k);
    if k < n {
      DropHeadTails(buckets[..n], k);
      assert dropped == DropHead(buckets[..n], k) + [buckets[n]];
      assert dropped[..|dropped| - 1] == DropHead(buckets[..n], k);
    } else {
      TailsOfSelf(buckets[..n]);
      if |buckets[k].entries| == 1 {
        assert dropped == buckets[..n];
      } else {
        assert dropped[..n] == buckets[..n];
      }
    }
  }

  lemma {:induction false} EvictedIsLeft(buckets: seq<Bucket>, own: string)
    ensures LeftOf(buckets, Evicted(buckets, own))
    decreases Count(buckets)
  {
    hide TailsOf, DropHead, Total, Count;
    TailsOfSelf(buckets);
    var k := OldestUpTo(buckets, own, |buckets|);
    if Total(buckets) > MAX_RESPONSE_BYTES_PER_DEVICE && k.Some? {
      DropHeadCounts(buckets, k.value);
      DropHeadTails(buckets, k.value);
      EvictedIsLeft(DropHead(buckets, k.value), own);
      TailsOfTails(Evicted(buckets, own), DropHead(buckets, k.value), buckets);
    }
  }

  lemma AppendIs(buckets: seq<Bucket>, answer: Entry)
    requires Bounded(buckets)
    ensures AfterAnswer(buckets, answer, Appended(buckets, answer))
  {
    hide IsStored, LeftOf, Evicted, Total, Count;
    assert forall k | 0 <= k < |buckets| :: Proper(buckets[k]);
    StoredIs(buckets, answer);
    EvictedIsLeft(Capped(Stored(buckets, answer)), answer.endpoint);
  }

  // ----- the append, in place -----

  class DeviceBuffers {
    var responses: seq<Bucket>
    var responseBytes: int

    /** The running total is the sum over every stored entry. */
    ghost predicate Valid()
      reads this
    {
      responseBytes == Total(responses)
    }

    constructor ()
      ensures Valid() && responses == []
    {
      responses, responseBytes := [], 0;
    }

    method AppendResponse(answer: Entry)
      requires Valid()
      modifies this
      ensures Valid()
      ensures Bounded(old(responses)) ==> AfterAnswer(old(responses), answer, responses)
      ensures responses == Appended(old(responses), answer)
    {
      hide Bytes, Total, Count, Stored, Evicted, Bounded, AfterAnswer;
      if Bounded(responses) { AppendIs(responses, answer); }
      Store(answer);
      if |responses| > MAX_RESPONSE_ENDPOINTS { DropFirst(); }
      EvictOldest(answer.endpoint);
    }

    /** The answer into its endpoint's list: counted when it repeats one, and the list cut to its slots. */
    method Store(answer: Entry)
      requires Valid()
      modifies this
      ensures Valid()
      ensures responses == Stored(old(responses), answer)
    {
      hide Bytes, Total, Count, Merged, LastSix;
      var k := FindBucket(answer.endpoint);
      var list := if k < |responses| then responses[k].entries else [];
      ghost var was := list;
      list := Merge(list, answer);
      list := Trim(list);
      PutSums(responses, answer.endpoint, list);
      responses := if k < |responses| then responses[k := Bucket(answer.endpoint, list)]
                   else responses + [Bucket(answer.endpoint, list)];
    }

    method Merge(list: seq<Entry>, answer: Entry) returns (merged: seq<Entry>)
      modifies `responseBytes
      ensures merged == Merged(list, answer)
      ensures responseBytes == old(responseBytes) - Bytes(list) + Bytes(merged)
    {
      var same := FindEqual(list, answer);
      merged := list;
      var entry := answer;
      if same < |list| {
        var earlier := list[same];
        BytesWithout(list, same);
        merged := list[..same] + list[same + 1..];
        responseBytes := responseBytes - earlier.bytes;
        entry := answer.(first := Some(if earlier.first.Some? then earlier.first.value else earlier.ts),
                         count := Some((if earlier.count.Some? then earlier.count.value else 1) + 1));
      }
      BytesPushed(merged, entry);
      merged := merged + [entry];
      responseBytes := responseBytes + entry.bytes;
    }

    method Trim(list: seq<Entry>) returns (trimmed: seq<Entry>)
      modifies `responseBytes
      ensures trimmed == LastSix(list)
      ensures responseBytes == old(responseBytes) - Bytes(list) + Bytes(trimmed)
    {
      hide Bytes;
      trimmed := list;
      while |trimmed| > MAX_RESPONSES_PER_ENDPOINT
        invariant |trimmed| <= |list| && trimmed == list[|list| - |trimmed|..]
        invariant |trimmed| == |list| || |trimmed| >= MAX_RESPONSES_PER_ENDPOINT
        invariant responseBytes == old(responseBytes) - Bytes(list) + Bytes(trimmed)
      {
        BytesTail(trimmed);
        responseBytes := responseBytes - trimmed[0].bytes;
        trimmed := trimmed[1..];
      }
    }

    /** Oldest first, over all endpoints, until the bytes fit or only the newest entry is left. */
    method EvictOldest(own: string)
      requires Valid()
      modifies this
      ensures Valid()
      ensures responses == Evicted(old(responses), own)
    {
      hide Bytes, Total, Count;
      while responseBytes > MAX_RESPONSE_BYTES_PER_DEVICE
        invariant Valid()
        invariant Evicted(old(responses), own) == Evicted(responses, own)
        decreases Count(responses)
      {
        var oldest := Oldest(own);
        if oldest.None? { break; }
        DropHeadCounts(responses, oldest.value);
        var entries := responses[oldest.value].entries;
        responseBytes := responseBytes - entries[0].bytes;
        responses := if |entries| == 1 then responses[..oldest.value] + responses[oldest.value + 1..]
                     else responses[oldest.value := responses[oldest.value].(entries := entries[1..])];
      }
    }

    method FindEqual(list: seq<Entry>, answer: Entry) returns (k: nat)
      ensures k == FindSame(list, answer)
    {
      k := 0;
      while k < |list| && !Same(list[k], answer)
        invariant 0 <= k <= |list| && forall j | 0 <= j < k :: !Same(list[j], answer)
      {
        k := k + 1;
      }
    }

    method FindBucket(endpoint: string) returns (k: nat)
      ensures k == Find(responses, endpoint)
    {
      k := 0;
      while k < |responses| && responses[k].endpoint != endpoint
        invariant 0 <= k <= |responses| && forall j | 0 <= j < k :: responses[j].endpoint != endpoint
      {
        k := k + 1;
      }
    }

    method DropFirst()
      requires Valid() && responses != []
      modifies this
      ensures Valid() && responses == old(responses)[1..]
    {
      var dropped := responses[0].entries;
      SumsAt(responses, 0);
      for j := 0 to |dropped|
        invariant responses == old(responses) && responseBytes == Total(responses) - Bytes(dropped[..j])
      {
        assert dropped[..j + 1][..j] == dropped[..j];
        responseBytes := responseBytes - dropped[j].bytes;
      }
      assert dropped[..|dropped|] == dropped;
      responses := responses[1..];
    }

    method Oldest(own: string) returns (oldest: Option<nat>)
      ensures oldest == OldestUpTo(responses, own, |responses|)
    {
      oldest := None;
      for k := 0 to |responses|
        invariant oldest == OldestUpTo(responses, own, k)
      {
        var entries := responses[k].entries;
        if entries == [] || (responses[k].endpoint == own && |entries| == 1) { continue; }
        if oldest.None? || entries[0].ts < responses[oldest.value].entries[0].ts {
          oldest := Some(k);
        }
      }
    }
  }

  lemma BytesPushed(list: seq<Entry>, entry: Entry)
    ensures Bytes(list + [entry]) == Bytes(list) + entry.bytes
  {
    assert (list + [entry])[..|list|] == list;
  }

  lemma PutSums(buckets: seq<Bucket>, endpoint: string, list: seq<Entry>)
    ensures Total(Put(buckets, endpoint, list)) == Total(buckets) - Bytes(ListOf(buckets, endpoint)) + Bytes(list)
  {
    var k := Find(buckets, endpoint);
    if k < |buckets| {
      SumsReplaced(buckets, k, Bucket(endpoint, list));
    } else {
      assert (buckets + [Bucket(endpoint, list)])[..|buckets|] == buckets;
    }
  }

  // ----- the bounds -----

  /** One endpoint's list: at least one answer, at most six, no two alike. */
  ghost predicate Proper(bucket: Bucket) {
    && 1 <= |bucket.entries| <= 6
    && (forall e | e in bucket.entries :: e.endpoint == bucket.endpoint)
    && AllDifferent(bucket.entries)
  }

  ghost predicate AllDifferent(list: seq<Entry>) {
    forall i, j | 0 <= i < j < |list| :: !Same(list[i], list[j])
  }

  ghost predicate Slots(buckets: seq<Bucket>) {
    && (forall i, j | 0 <= i < j < |buckets| :: buckets[i].endpoint != buckets[j].endpoint)
    && (forall k | 0 <= k < |buckets| :: Proper(buckets[k]))
  }

  /** The list at `k` ends with `entry`. */
  ghost predicate EndsAt(buckets: seq<Bucket>, k: nat, entry: Entry) {
    && k < |buckets| && buckets[k].endpoint == entry.endpoint
    && buckets[k].entries != [] && buckets[k].entries[|buckets[k].entries| - 1] == entry
  }

  ghost predicate Holds(buckets: seq<Bucket>, entry: Entry) {
    exists k | 0 <= k < |buckets| :: entry in buckets[k].entries
  }

  lemma MergedIs(list: seq<Entry>, answer: Entry)
    requires AllDifferent(list) && forall e | e in list :: e.endpoint == answer.endpoint
    ensures var m := Merged(list, answer);
            && AllDifferent(m) && (forall e | e in m :: e.endpoint == answer.endpoint)
            && m != [] && m[|m| - 1] == Newest(list, answer)
            && (forall e | e in m :: e in list || e == Newest(list, answer))
            && (forall e | e in list && !Same(e, answer) :: e in m)
  {
    hide Newest, FindSame;
    var rest := Without(list, FindSame(list, answer));
    NewestIsAlike(list, answer);
    WithoutMembers(list, FindSame(list, answer));
    RestDiffers(list, answer);
    assert forall e | e in list && !Same(e, answer) :: e in rest;
  }

  /** Without its copy of the answer a list holds nothing like it. */
  lemma RestDiffers(list: seq<Entry>, answer: Entry)
    requires AllDifferent(list)
    ensures AllDifferent(Without(list, FindSame(list, answer)))
    ensures forall e | e in Without(list, FindSame(list, answer)) :: !Same(e, answer)
  {
    hide Same, Without;
    var k, rest := FindSame(list, answer), Without(list, FindSame(list, answer));
    forall j | 0 <= j < |rest| ensures !Same(rest[j], answer) {
      WithoutAt(list, k, j);
      if k < |list| { OneAlike(list, answer, k); }
    }
    forall i, j | 0 <= i < j < |rest| ensures !Same(rest[i], rest[j]) {
      WithoutAt(list, k, i);
      WithoutAt(list, k, j);
    }
  }

  lemma WithoutAt(list: seq<Entry>, k: nat, j: nat)
    requires j < |Without(list, k)|
    ensures j + (if j < k then 0 else 1) < |list| && Without(list, k)[j] == list[j + (if j < k then 0 else 1)]
  {
  }

  lemma OneAlike(list: seq<Entry>, answer: Entry, k: nat)
    requires AllDifferent(list) && k < |list| && Same(list[k], answer)
    ensures forall j | 0 <= j < |list| && j != k :: !Same(list[j], answer)
  {
    forall j | 0 <= j < |list| && j != k ensures !Same(list[j], answer) {
      if Same(list[j], answer) { AlikeBoth(list[j], list[k], answer); }
    }
  }

  lemma AlikeBoth(a: Entry, b: Entry, c: Entry)
    requires Same(a, c) && Same(b, c)
    ensures Same(a, b)
  {
  }

  lemma NewestIsAlike(list: seq<Entry>, answer: Entry)
    ensures Newest(list, answer).endpoint == answer.endpoint
    ensures forall e :: Same(e, Newest(list, answer)) <==> Same(e, answer)
  {
  }

  /** Without the element at `k` all others are there. */
  lemma WithoutMembers(list: seq<Entry>, k: nat)
    ensures forall e | e in Without(list, k) :: e in list
    ensures forall e | e in list && (k < |list| ==> e != list[k]) :: e in Without(list, k)
  {
    var rest := Without(list, k);
    forall e | e in list && (k < |list| ==> e != list[k]) ensures e in rest {
      var j :| 0 <= j < |list| && list[j] == e;
      assert e == if k >= |list| || j < k then rest[j] else rest[j - 1];
    }
  }

  lemma LastSixProper(list: seq<Entry>, endpoint: string)
    requires list != [] && AllDifferent(list) && forall e | e in list :: e.endpoint == endpoint
    ensures Proper(Bucket(endpoint, LastSix(list))) && LastSix(list)[|LastSix(list)| - 1] == list[|list| - 1]
  {
    hide Same;
    var tail, d := LastSix(list), |list| - |LastSix(list)|;
    forall i, j | 0 <= i < j < |tail| ensures !Same(tail[i], tail[j]) {
      assert tail[i] == list[d + i] && tail[j] == list[d + j];
    }
    assert forall e | e in tail :: e in list;
  }

  lemma PutKeeps(buckets: seq<Bucket>, endpoint: string, list: seq<Entry>)
    requires Slots(buckets) && Proper(Bucket(endpoint, list))
    ensures Slots(Put(buckets, endpoint, list))
  {
    hide Proper;
  }

  /** Storing puts the newest entry last in its endpoint's list and keeps the slots. */
  lemma StoredKeeps(buckets: seq<Bucket>, answer: Entry) returns (k: nat)
    requires Slots(buckets)
    ensures var list := ListOf(buckets, answer.endpoint);
            && k == Find(buckets, answer.endpoint)
            && |Stored(buckets, answer)| == (if k < |buckets| then |buckets| else |buckets| + 1)
            && Slots(Stored(buckets, answer)) && EndsAt(Stored(buckets, answer), k, Newest(list, answer))
  {
    hide Merged, Newest, LastSix, AllDifferent;
    var list := ListOf(buckets, answer.endpoint);
    k := Find(buckets, answer.endpoint);
    if k < |buckets| { assert Proper(buckets[k]); } else { NoneDiffer(); }
    MergedIs(list, answer);
    LastSixProper(Merged(list, answer), answer.endpoint);
    PutKeeps(buckets, answer.endpoint, LastSix(Merged(list, answer)));
    NewestIsAlike(list, answer);
  }

  lemma NoneDiffer()
    ensures AllDifferent([])
  {
  }

  lemma DropHeadKeeps(buckets: seq<Bucket>, k: nat, own: nat, entry: Entry) returns (after: nat)
    requires Slots(buckets) && k < |buckets| && EndsAt(buckets, own, entry) && Evictable(buckets[k], entry.endpoint)
    ensures Slots(DropHead(buckets, k)) && |DropHead(buckets, k)| <= |buckets|
    ensures EndsAt(DropHead(buckets, k), after, entry)
  {
    hide Same;
    var dropped := DropHead(buckets, k);
    if |buckets[k].entries| == 1 {
      after := if own < k then own else own - 1;
      assert forall j | 0 <= j < |dropped| :: dropped[j] == if j < k then buckets[j] else buckets[j + 1];
    } else {
      after := own;
      assert Proper(buckets[k]);
      assert Proper(dropped[k]);
    }
  }

  /** Eviction ends with the bytes in the budget or the newest entry alone, which it never takes. */
  lemma {:induction false} EvictedKeeps(buckets: seq<Bucket>, own: nat, entry: Entry) returns (after: nat)
    requires Slots(buckets) && EndsAt(buckets, own, entry)
    ensures var left := Evicted(buckets, entry.endpoint);
            && Slots(left) && |left| <= |buckets| && EndsAt(left, after, entry)
            && (Total(left) <= MAX_RESPONSE_BYTES_PER_DEVICE || left == [Bucket(entry.endpoint, [entry])])
    decreases Count(buckets)
  {
    hide Slots, Total, DropHead, Count;
    after := own;
    var k := OldestUpTo(buckets, entry.endpoint, |buckets|);
    if Total(buckets) > MAX_RESPONSE_BYTES_PER_DEVICE {
      if k.Some? {
        after := DropHeadKeeps(buckets, k.value, own, entry);
        DropHeadCounts(buckets, k.value);
        after := EvictedKeeps(DropHead(buckets, k.value), after, entry);
      } else {
        NothingElse(buckets, own, entry);
      }
    }
  }

  lemma NothingElse(buckets: seq<Bucket>, own: nat, entry: Entry)
    requires Slots(buckets) && EndsAt(buckets, own, entry)
    requires forall j | 0 <= j < |buckets| :: !Evictable(buckets[j], entry.endpoint)
    ensures buckets == [Bucket(entry.endpoint, [entry])]
  {
    assert forall j | 0 <= j < |buckets| :: Proper(buckets[j]);
    assert own == 0 && |buckets| == 1 by {
      assert buckets[0].endpoint == entry.endpoint;
      assert |buckets| > 1 ==> buckets[1].endpoint == entry.endpoint;
    }
    assert buckets[0].entries == [entry];
  }

  /** What holds after every append. */
  ghost predicate Bounded(buckets: seq<Bucket>) {
    && Slots(buckets) && |buckets| <= 24
    && (Total(buckets) <= 512 * 1024 || Count(buckets) == 1)
  }

  /** Every append keeps the three bounds and keeps the entry it stored, as the last of its endpoint. */
  lemma AppendIsBounded(buckets: seq<Bucket>, answer: Entry) returns (k: nat)
    requires Bounded(buckets)
    ensures Bounded(Appended(buckets, answer))
    ensures EndsAt(Appended(buckets, answer), k, Newest(ListOf(buckets, answer.endpoint), answer))
    ensures Total(Appended(buckets, answer)) <= MAX_RESPONSE_BYTES_PER_DEVICE
         || Appended(buckets, answer) == [Bucket(answer.endpoint, [Newest(ListOf(buckets, answer.endpoint), answer)])]
  {
    hide Total, Evicted, Stored, Proper, ListOf;
    var entry := Newest(ListOf(buckets, answer.endpoint), answer);
    assert entry.endpoint == answer.endpoint;
    k := StoredKeeps(buckets, answer);
    var stored := Stored(buckets, answer);
    if |stored| > MAX_RESPONSE_ENDPOINTS { k := k - 1; }
    assert Slots(Capped(stored)) && EndsAt(Capped(stored), k, entry);
    k := EvictedKeeps(Capped(stored), k, entry);
    var left := Appended(buckets, answer);
    OneLeft(Bucket(answer.endpoint, [entry]));
  }

  lemma OneLeft(bucket: Bucket)
    ensures Count([bucket]) == |bucket.entries|
  {
    assert [bucket][..0] == [];
  }

  // ----- oldest first -----

  /** Every list is in the order of its times, and none is later than `now`. */
  ghost predicate InOrder(buckets: seq<Bucket>, now: int) {
    forall k | 0 <= k < |buckets| :: Ascending(buckets[k].entries, now)
  }

  ghost predicate Ascending(list: seq<Entry>, now: int) {
    && (forall i, j | 0 <= i < j < |list| :: list[i].ts <= list[j].ts)
    && (forall i | 0 <= i < |list| :: list[i].ts <= now)
  }

  /** With the lists in order the evicted head is the oldest entry of the device other than the one just stored. */
  lemma {:induction false} OldestGoes(buckets: seq<Bucket>, now: int, own: nat, entry: Entry, other: Entry)
    requires Slots(buckets) && InOrder(buckets, now) && EndsAt(buckets, own, entry) && Holds(buckets, other)
             && other != entry
    ensures var k := OldestUpTo(buckets, entry.endpoint, |buckets|);
            k.Some? && buckets[k.value].entries[0].ts <= other.ts
  {
    hide Same;
    var n :| 0 <= n < |buckets| && other in buckets[n].entries;
    var i :| 0 <= i < |buckets[n].entries| && buckets[n].entries[i] == other;
    assert Ascending(buckets[n].entries, now) && Evictable(buckets[n], entry.endpoint);
    assert i > 0 ==> buckets[n].entries[0].ts <= other.ts;
  }

  lemma DropHeadHolds(buckets: seq<Bucket>, k: nat, e: Entry)
    requires k < |buckets| && buckets[k].entries != []
    ensures Holds(DropHead(buckets, k), e) ==> Holds(buckets, e)
    ensures Holds(buckets, e) ==> e == buckets[k].entries[0] || Holds(DropHead(buckets, k), e)
  {
    var dropped, list := DropHead(buckets, k), buckets[k].entries;
    assert list == [list[0]] + list[1..];
    if j :| 0 <= j < |buckets| && e in buckets[j].entries {
      if j != k {
        assert e in dropped[if |list| == 1 && j > k then j - 1 else j].entries;
      } else if |list| > 1 {
        assert dropped[k].entries == list[1..];
      }
    }
    if j :| 0 <= j < |dropped| && e in dropped[j].entries {
      assert e in buckets[if |list| == 1 && j >= k then j + 1 else j].entries;
    }
  }

  lemma DropHeadInOrder(buckets: seq<Bucket>, k: nat, now: int)
    requires k < |buckets| && buckets[k].entries != [] && InOrder(buckets, now)
    ensures InOrder(DropHead(buckets, k), now)
  {
    assert Ascending(buckets[k].entries, now) && Ascending(buckets[k].entries[1..], now);
  }

  /** Whatever an append evicts for its bytes is no newer than anything it keeps besides the entry just stored. */
  lemma {:induction false} EvictionIsOldestFirst(
      buckets: seq<Bucket>, now: int, own: nat, entry: Entry, gone: Entry, kept: Entry)
    requires Slots(buckets) && InOrder(buckets, now) && EndsAt(buckets, own, entry)
    requires Holds(buckets, gone) && !Holds(Evicted(buckets, entry.endpoint), gone)
    requires Holds(Evicted(buckets, entry.endpoint), kept) && kept != entry
    ensures gone.ts <= kept.ts
    decreases Count(buckets)
  {
    hide Slots, Holds, Total, DropHead, InOrder, Count;
    var k := OldestUpTo(buckets, entry.endpoint, |buckets|);
    var dropped := DropHead(buckets, k.value);
    DropHeadCounts(buckets, k.value);
    EvictedHolds(dropped, entry.endpoint, kept);
    DropHeadHolds(buckets, k.value, kept);
    OldestGoes(buckets, now, own, entry, kept);
    DropHeadHolds(buckets, k.value, gone);
    if Holds(dropped, gone) {
      var after := DropHeadKeeps(buckets, k.value, own, entry);
      DropHeadInOrder(buckets, k.value, now);
      EvictionIsOldestFirst(dropped, now, after, entry, gone, kept);
    }
  }

  lemma {:induction false} EvictedHolds(buckets: seq<Bucket>, own: string, e: Entry)
    requires Holds(Evicted(buckets, own), e)
    ensures Holds(buckets, e)
    decreases Count(buckets)
  {
    hide Holds, Total, DropHead, Count;
    var k := OldestUpTo(buckets, own, |buckets|);
    if Total(buckets) > MAX_RESPONSE_BYTES_PER_DEVICE && k.Some? {
      DropHeadCounts(buckets, k.value);
      EvictedHolds(DropHead(buckets, k.value), own, e);
      DropHeadHolds(buckets, k.value, e);
    }
  }

  /** The last entry that was evicted: without its going the bytes were over the budget. */
  lemma {:induction false} EvictionIsNeeded(buckets: seq<Bucket>, own: nat, entry: Entry)
    requires Slots(buckets) && EndsAt(buckets, own, entry)
    ensures Evicted(buckets, entry.endpoint) == buckets || exists gone :: IsLastGone(buckets, entry.endpoint, gone)
    decreases Count(buckets)
  {
    hide Holds, Total, DropHead, Count, Slots, Same;
    var k := OldestUpTo(buckets, entry.endpoint, |buckets|);
    if Total(buckets) > MAX_RESPONSE_BYTES_PER_DEVICE && k.Some? {
      var dropped, head := DropHead(buckets, k.value), buckets[k.value].entries[0];
      DropHeadCounts(buckets, k.value);
      var after := DropHeadKeeps(buckets, k.value, own, entry);
      EvictionIsNeeded(dropped, after, entry);
      if Evicted(dropped, entry.endpoint) == dropped {
        HeadGoes(buckets, k.value);
        assert IsLastGone(buckets, entry.endpoint, head);
      } else {
        var gone :| IsLastGone(dropped, entry.endpoint, gone);
        DropHeadHolds(buckets, k.value, gone);
        assert IsLastGone(buckets, entry.endpoint, gone);
      }
    }
  }

  /** It was held, it is held no more, and with it the bytes are over the budget. */
  ghost predicate IsLastGone(buckets: seq<Bucket>, own: string, gone: Entry) {
    var kept := Evicted(buckets, own);
    Holds(buckets, gone) && !Holds(kept, gone) && Total(kept) + gone.bytes > MAX_RESPONSE_BYTES_PER_DEVICE
  }

  /** The head of a list stood there alone of its kind. */
  lemma HeadGoes(buckets: seq<Bucket>, k: nat)
    requires Slots(buckets) && k < |buckets| && buckets[k].entries != []
    ensures Holds(buckets, buckets[k].entries[0]) && !Holds(DropHead(buckets, k), buckets[k].entries[0])
  {
    var list, dropped := buckets[k].entries, DropHead(buckets, k);
    assert Proper(buckets[k]);
    forall j | 0 <= j < |dropped| ensures list[0] !in dropped[j].entries {
      var m := if |list| == 1 && j >= k then j + 1 else j;
      assert Proper(buckets[m]);
      if m == k {
        assert dropped[j].entries == list[1..];
        assert forall i | 0 <= i < |list[1..]| :: list[1..][i] == list[i + 1] && !Same(list[0], list[i + 1]);
      } else {
        assert dropped[j] == buckets[m];
      }
    }
  }

  // ----- whole histories -----

  /** The buffers after every answer, in turn. */
  function History(answers: seq<Entry>): seq<Bucket> {
    if answers == [] then []
    else Appended(History(answers[..|answers| - 1]), answers[|answers| - 1])
  }

  ghost predicate Nondecreasing(answers: seq<Entry>) {
    forall i, j | 0 <= i < j < |answers| :: answers[i].ts <= answers[j].ts
  }

  lemma StoredInOrder(buckets: seq<Bucket>, answer: Entry)
    requires InOrder(buckets, answer.ts)
    ensures InOrder(Capped(Stored(buckets, answer)), answer.ts)
  {
    hide Merged, LastSix, Ascending;
    NoneAscending(answer.ts);
    ListInOrder(ListOf(buckets, answer.endpoint), answer);
  }

  lemma NoneAscending(now: int)
    ensures Ascending([], now)
  {
  }

  lemma ListInOrder(list: seq<Entry>, answer: Entry)
    requires Ascending(list, answer.ts)
    ensures Ascending(LastSix(Merged(list, answer)), answer.ts)
  {
    hide Ascending;
    var rest := Without(list, FindSame(list, answer));
    AscendingWithout(list, FindSame(list, answer), answer.ts);
    AscendingPushed(rest, Newest(list, answer));
    AscendingTail(Merged(list, answer), answer.ts);
  }

  lemma AscendingWithout(list: seq<Entry>, k: nat, now: int)
    requires Ascending(list, now)
    ensures Ascending(Without(list, k), now)
  {
    var rest := Without(list, k);
    forall j | 0 <= j < |rest| ensures rest[j].ts <= now {
      assert rest[j] == (if j < k then list[j] else list[j + 1]);
    }
    forall i, j | 0 <= i < j < |rest| ensures rest[i].ts <= rest[j].ts {
      var m, n := if i < k then i else i + 1, if j < k then j else j + 1;
      assert rest[i] == list[m] && rest[j] == list[n];
    }
  }

  lemma AscendingPushed(list: seq<Entry>, entry: Entry)
    requires Ascending(list, entry.ts)
    ensures Ascending(list + [entry], entry.ts)
  {
  }

  lemma AscendingTail(list: seq<Entry>, now: int)
    requires Ascending(list, now)
    ensures Ascending(LastSix(list), now)
  {
    var tail, d := LastSix(list), |list| - |LastSix(list)|;
    forall j | 0 <= j < |tail| ensures tail[j].ts <= now { assert tail[j] == list[d + j]; }
    forall i, j | 0 <= i < j < |tail| ensures tail[i].ts <= tail[j].ts {
      assert tail[i] == list[d + i] && tail[j] == list[d + j];
    }
  }

  lemma {:induction false} EvictedInOrder(buckets: seq<Bucket>, own: string, now: int)
    requires InOrder(buckets, now)
    ensures InOrder(Evicted(buckets, own), now)
    decreases Count(buckets)
  {
    hide Total, DropHead, Count, InOrder;
    var k := OldestUpTo(buckets, own, |buckets|);
    if Total(buckets) > MAX_RESPONSE_BYTES_PER_DEVICE && k.Some? {
      DropHeadCounts(buckets, k.value);
      DropHeadInOrder(buckets, k.value, now);
      EvictedInOrder(DropHead(buckets, k.value), own, now);
    }
  }

  /** The bounds hold after any answers; with a clock that never runs back the lists stay in order. */
  lemma {:induction false} HistoryIsBounded(answers: seq<Entry>, now: int)
    ensures Bounded(History(answers))
    ensures Nondecreasing(answers) && (answers != [] ==> answers[|answers| - 1].ts <= now) ==>
            InOrder(History(answers), now)
    decreases |answers|
  {
    hide Evicted, Stored, Slots, Total, Count, InOrder;
    if answers == [] {
      NothingYet(now);
    } else {
      var n := |answers| - 1;
      var before, answer := History(answers[..n]), answers[n];
      HistoryIsBounded(answers[..n], answer.ts);
      var k := AppendIsBounded(before, answer);
      if Nondecreasing(answers) && answer.ts <= now {
        StoredInOrder(before, answer);
        EvictedInOrder(Capped(Stored(before, answer)), answer.endpoint, answer.ts);
        InOrderLater(History(answers), answer.ts, now);
      }
    }
  }

  lemma NothingYet(now: int)
    ensures Bounded([]) && InOrder([], now)
  {
  }

  lemma InOrderLater(buckets: seq<Bucket>, now: int, later: int)
    requires InOrder(buckets, now) && now <= later
    ensures InOrder(buckets, later)
  {
    assert forall k | 0 <= k < |buckets| :: Ascending(buckets[k].entries, now);
  }

  /**
   * With a clock that never runs back, what an append after any answers evicts is no newer than anything it keeps,
   * besides the answer itself.
   */
  lemma HistoryEvictsOldestFirst(answers: seq<Entry>, answer: Entry, stored: seq<Bucket>, gone: Entry, kept: Entry)
    requires Nondecreasing(answers + [answer]) && IsStored(History(answers), answer, stored)
    requires Holds(stored, gone) && !Holds(History(answers + [answer]), gone)
    requires Holds(History(answers + [answer]), kept) && !(kept.endpoint == answer.endpoint && Same(kept, answer))
    ensures gone.ts <= kept.ts
  {
    hide Evicted, Stored, Slots, Total, Count, InOrder, Holds, Newest, Find, IsStored;
    var before := History(answers);
    assert (answers + [answer])[..|answers|] == answers;
    assert forall i | 0 <= i < |answers| :: (answers + [answer])[i] == answers[i];
    HistoryIsBounded(answers, answer.ts);
    StoredOnly(before, answer, stored);
    StoredInOrder(before, answer);
    NewestIsAlike(ListOf(before, answer.endpoint), answer);
    var k := CappedEnds(answers, answer);
    EvictionIsOldestFirst(stored, answer.ts, k, Newest(ListOf(before, answer.endpoint), answer), gone, kept);
  }

  /** The list of an answer just stored ends with it, also once the endpoints are capped. */
  lemma CappedEnds(answers: seq<Entry>, answer: Entry) returns (k: nat)
    ensures var capped, newest := Capped(Stored(History(answers), answer)),
            Newest(ListOf(History(answers), answer.endpoint), answer);
            Slots(capped) && EndsAt(capped, k, newest) && newest.endpoint == answer.endpoint
  {
    hide Evicted, Stored, Slots, Total, Count, Holds, Newest, Find, InOrder;
    var before := History(answers);
    HistoryIsBounded(answers, answer.ts);
    k := StoredKeeps(before, answer);
    var stored := Stored(before, answer);
    NewestIsAlike(ListOf(before, answer.endpoint), answer);
    if |stored| > MAX_RESPONSE_ENDPOINTS {
      CappedKeeps(stored, k, Newest(ListOf(before, answer.endpoint), answer));
      k := k - 1;
    }
  }

  /** After any answers an append stores the answer and leaves the rest as it was, but for the byte budget. */
  lemma HistoryKeepsTheRest(answers: seq<Entry>, answer: Entry)
    ensures AfterAnswer(History(answers), answer, History(answers + [answer]))
  {
    hide Bounded, AfterAnswer, Appended;
    assert (answers + [answer])[..|answers|] == answers;
    HistoryIsBounded(answers, answer.ts);
    AppendIs(History(answers), answer);
  }

  /** An append after any answers evicts nothing it did not have to: with its last eviction the bytes were over. */
  lemma EvictsNoMoreThanNeeded(answers: seq<Entry>, answer: Entry, stored: seq<Bucket>)
    requires IsStored(History(answers), answer, stored)
    ensures var after := History(answers + [answer]);
            || after == stored
            || exists gone ::
                 Holds(stored, gone) && !Holds(after, gone) && Total(after) + gone.bytes > 512 * 1024
  {
    hide Evicted, Stored, Slots, Total, Count, Holds, Newest, Find, IsStored;
    assert (answers + [answer])[..|answers|] == answers;
    HistoryIsBounded(answers, answer.ts);
    StoredOnly(History(answers), answer, stored);
    var k := CappedEnds(answers, answer);
    EvictionIsNeeded(stored, k, Newest(ListOf(History(answers), answer.endpoint), answer));
    if History(answers + [answer]) != stored {
      var gone :| IsLastGone(stored, answer.endpoint, gone);
      assert Holds(stored, gone);
    }
  }

  /** What an answer leaves before the byte budget is unique. */
  lemma StoredOnly(buckets: seq<Bucket>, answer: Entry, stored: seq<Bucket>)
    requires Bounded(buckets) && IsStored(buckets, answer, stored)
    ensures stored == Capped(Stored(buckets, answer))
  {
    hide GrownBy, Stored, Capped, Total, Count;
    assert forall k | 0 <= k < |buckets| :: Proper(buckets[k]);
    StoredIs(buckets, answer);
    var capped := Capped(Stored(buckets, answer));
    if exists k | 0 <= k < |buckets| :: buckets[k].endpoint == answer.endpoint {
      forall k | 0 <= k < |buckets| ensures stored[k] == capped[k] {
        if buckets[k].endpoint == answer.endpoint {
          GrownOnly(buckets[k].entries, answer, stored[k].entries, capped[k].entries);
        }
      }
    }
  }

  lemma GrownOnly(list: seq<Entry>, answer: Entry, a: seq<Entry>, b: seq<Entry>)
    requires AllDifferent(list) && GrownBy(list, answer, a) && GrownBy(list, answer, b)
    ensures a == b
  {
    if i :| 0 <= i < |list| && Same(list[i], answer) { OneAlike(list, answer, i); }
  }

  lemma CappedKeeps(buckets: seq<Bucket>, k: nat, entry: Entry)
    requires Slots(buckets) && EndsAt(buckets, k, entry) && k > 0
    ensures Slots(buckets[1..]) && EndsAt(buckets[1..], k - 1, entry)
  {
  }

  /** An answer its endpoint already stores is counted on: the earlier copy goes, its first time and its count stay. */
  lemma RepeatIsCounted(buckets: seq<Bucket>, answer: Entry, earlier: Entry)
    requires Slots(buckets) && earlier in ListOf(buckets, answer.endpoint) && Same(earlier, answer)
    ensures var list := ListOf(buckets, answer.endpoint);
            var newest := Newest(list, answer);
            && newest.ts == answer.ts
            && newest.count == Some((if earlier.count.Some? then earlier.count.value else 1) + 1)
            && newest.first == Some(if earlier.first.Some? then earlier.first.value else earlier.ts)
            && |LastSix(Merged(list, answer))| == |list|
            && (forall e | e in list && e != earlier :: e in LastSix(Merged(list, answer)))
  {
    hide Same, Merged, LastSix;
    var list, k := ListOf(buckets, answer.endpoint), FindSame(ListOf(buckets, answer.endpoint), answer);
    assert Proper(buckets[Find(buckets, answer.endpoint)]);
    RepeatTakesOver(list, answer, k);
    OneAlike(list, answer, k);
    assert earlier == list[k];
    WithoutMembers(list, k);
    assert forall e | e in list && e != earlier :: e in Without(list, k);
  }
}
