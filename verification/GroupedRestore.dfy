/** Replaying a captured strip: one batch for each distinct colour and brightness instead of one write a segment. */
module GroupedRestore {
  import opened BleFrame
  import opened Options
  import opened SegmentMask

  /** A captured segment; a colour that is no hex text and a brightness that is no number are missing. */
  datatype Segment = Segment(idx: nat, color: Option<nat>, brightness: Option<int>) {
    function Shows(): Look {
      Look(if color.Some? then color.value else 0, if brightness.Some? then brightness.value else 100)
    }
  }

  /** What a segment shows. The grouping key is the text of both numbers, which determines them. */
  datatype Look = Look(color: nat, brightness: int)

  datatype Batch = Batch(segments: seq<nat>, look: Look)

  type Strip = map<nat, Look>

  // ----- grouping -----

  function Position(batches: seq<Batch>, look: Look): (k: nat)
    ensures k <= |batches|
    ensures k < |batches| ==> batches[k].look == look
    ensures forall i | 0 <= i < k :: batches[i].look != look
  {
    if batches == [] || batches[0].look == look then 0 else 1 + Position(batches[1..], look)
  }

  function Joined(batches: seq<Batch>, s: Segment): seq<Batch> {
    var k := Position(batches, s.Shows());
    if k < |batches| then batches[k := batches[k].(segments := batches[k].segments + [s.idx])]
    else batches + [Batch([s.idx], s.Shows())]
  }

  function Grouped(segments: seq<Segment>): seq<Batch>
    decreases |segments|
  {
    if segments == [] then [] else Joined(Grouped(segments[..|segments| - 1]), segments[|segments| - 1])
  }

  /** The loop: the batches in the order they are sent. */
  method RestoreSegmentsGrouped(segments: seq<Segment>) returns (sent: seq<Batch>)
    ensures sent == Grouped(segments)
  {
    sent := [];
    for i := 0 to |segments|
      invariant sent == Grouped(segments[..i])
    {
      assert segments[..i + 1][..i] == segments[..i];
      var look := segments[i].Shows();
      var k := 0;
      while k < |sent| && sent[k].look != look
        invariant 0 <= k <= |sent| && forall j | 0 <= j < k :: sent[j].look != look
      {
        k := k + 1;
      }
      assert k == Position(sent, look);
      if k < |sent| {
        sent := sent[k := sent[k].(segments := sent[k].segments + [segments[i].idx])];
      } else {
        sent := sent + [Batch([segments[i].idx], look)];
      }
    }
    assert segments[..|segments|] == segments;
  }

  /** The indices that show `look`, in capture order. */
  function Showing(segments: seq<Segment>, look: Look): seq<nat>
    decreases |segments|
  {
    if segments == [] then []
    else
      var n := |segments| - 1;
      Showing(segments[..n], look) + (if segments[n].Shows() == look then [segments[n].idx] else [])
  }

  /** One batch a look, each with exactly that look's indices in capture order, and no look left out. */
  ghost predicate Partitions(batches: seq<Batch>, segments: seq<Segment>) {
    && (forall k | 0 <= k < |batches| :: batches[k].segments == Showing(segments, batches[k].look) != [])
    && (forall i, j | 0 <= i < j < |batches| :: batches[i].look != batches[j].look)
    && (forall s | s in segments :: Covered(batches, s.Shows()))
  }

  ghost predicate Covered(batches: seq<Batch>, look: Look) {
    exists k :: 0 <= k < |batches| && batches[k].look == look
  }

  lemma {:induction false} BatchesPartition(segments: seq<Segment>)
    ensures Partitions(Grouped(segments), segments)
    decreases |segments|
  {
    if segments != [] {
      var n := |segments| - 1;
      BatchesPartition(segments[..n]);
      JoinKeepsPartition(Grouped(segments[..n]), segments[..n], segments[n]);
      assert segments[..n] + [segments[n]] == segments;
    }
  }

  lemma JoinKeepsPartition(batches: seq<Batch>, segments: seq<Segment>, s: Segment)
    requires Partitions(batches, segments)
    ensures Partitions(Joined(batches, s), segments + [s])
  {
    hide Showing;
    var look := s.Shows();
    var p, after := Position(batches, look), Joined(batches, s);
    if p == |batches| { NobodyShows(segments, look); }
    forall k | 0 <= k < |after| ensures after[k].segments == Showing(segments + [s], after[k].look) != [] {
      ShowingOneMore(segments, s, after[k].look);
    }
    forall t | t in segments + [s] ensures Covered(after, t.Shows()) {
      assert after[p].look == look;
      if t in segments {
        assert Covered(batches, t.Shows());
        var k :| 0 <= k < |batches| && batches[k].look == t.Shows();
        assert after[k].look == t.Shows();
      }
    }
  }

  lemma ShowingOneMore(segments: seq<Segment>, s: Segment, look: Look)
    ensures Showing(segments + [s], look) == Showing(segments, look) + (if s.Shows() == look then [s.idx] else [])
  {
    assert (segments + [s])[..|segments|] == segments;
  }

  lemma {:induction false} NobodyShows(segments: seq<Segment>, look: Look)
    requires forall s | s in segments :: s.Shows() != look
    ensures Showing(segments, look) == []
    decreases |segments|
  {
    if segments != [] { NobodyShows(segments[..|segments| - 1], look); }
  }

  lemma {:induction false} ShowingIs(segments: seq<Segment>, look: Look)
    ensures forall i :: i in Showing(segments, look) <==> exists s :: s in segments && s.idx == i && s.Shows() == look
    decreases |segments|
  {
    if segments != [] {
      var n := |segments| - 1;
      ShowingIs(segments[..n], look);
      forall i ensures i in Showing(segments, look) <==> exists s :: s in segments && s.idx == i && s.Shows() == look {
        if i in Showing(segments[..n], look) {
          var s :| s in segments[..n] && s.idx == i && s.Shows() == look;
        } else if exists s :: s in segments && s.idx == i && s.Shows() == look {
          var s :| s in segments && s.idx == i && s.Shows() == look;
          assert s in segments[..n] || s == segments[n];
        } else if segments[n].Shows() == look {
          assert segments[n] in segments;
        }
      }
    }
  }

  // ----- the strip -----

  function AfterBatch(strip: Strip, b: Batch): Strip {
    map i | i in strip.Keys + (set j | j in b.segments) :: if i in b.segments then b.look else strip[i]
  }

  function AfterBatches(strip: Strip, batches: seq<Batch>): Strip
    decreases |batches|
  {
    if batches == [] then strip else AfterBatch(AfterBatches(strip, batches[..|batches| - 1]), batches[|batches| - 1])
  }

  /** Every segment written on its own, in capture order. */
  function AfterEach(strip: Strip, segments: seq<Segment>): Strip
    decreases |segments|
  {
    if segments == [] then strip
    else AfterEach(strip, segments[..|segments| - 1])[segments[|segments| - 1].idx := segments[|segments| - 1].Shows()]
  }

  /** Where a look is captured first. */
  function FirstAt(segments: seq<Segment>, look: Look): (k: nat)
    ensures k <= |segments|
    ensures k < |segments| ==> segments[k].Shows() == look
    ensures forall i | 0 <= i < k :: segments[i].Shows() != look
  {
    if segments == [] || segments[0].Shows() == look then 0 else 1 + FirstAt(segments[1..], look)
  }

  /** The batches go out in the order their looks were captured first. */
  lemma {:induction false} BatchesInOrder(segments: seq<Segment>)
    ensures var batches := Grouped(segments);
            && (forall k | 0 <= k < |batches| :: FirstAt(segments, batches[k].look) < |segments|)
            && forall j, k | 0 <= j < k < |batches| ::
               FirstAt(segments, batches[j].look) < FirstAt(segments, batches[k].look)
    decreases |segments|
  {
    if segments != [] {
      var n := |segments| - 1;
      BatchesInOrder(segments[..n]);
      forall look ensures FirstAt(segments[..n], look) < n ==> FirstAt(segments, look) == FirstAt(segments[..n], look) {
        FirstStays(segments, look);
      }
      var batches, look := Grouped(segments[..n]), segments[n].Shows();
      if Position(batches, look) == |batches| { NewLookIsLast(segments); }
    }
  }

  lemma FirstStays(segments: seq<Segment>, look: Look)
    requires segments != []
    ensures var n := |segments| - 1;
            FirstAt(segments[..n], look) < n ==> FirstAt(segments, look) == FirstAt(segments[..n], look)
  {
    var n := |segments| - 1;
    var a, b := FirstAt(segments[..n], look), FirstAt(segments, look);
    assert forall i | 0 <= i < n :: segments[..n][i] == segments[i];
  }

  /** A look no batch has yet was not captured before. */
  lemma NewLookIsLast(segments: seq<Segment>)
    requires segments != []
    requires var batches := Grouped(segments[..|segments| - 1]);
             Position(batches, segments[|segments| - 1].Shows()) == |batches|
    ensures FirstAt(segments, segments[|segments| - 1].Shows()) == |segments| - 1
  {
    var n := |segments| - 1;
    var look := segments[n].Shows();
    BatchesPartition(segments[..n]);
    assert !Covered(Grouped(segments[..n]), look);
    assert forall k | 0 <= k < n :: segments[..n][k] in segments[..n] && segments[..n][k] == segments[k];
  }

  ghost predicate IsLastBatch(batches: seq<Batch>, i: nat, k: int) {
    0 <= k < |batches| && i in batches[k].segments && forall j | k < j < |batches| :: i !in batches[j].segments
  }

  /** The strip shows at `i` what the last batch with `i` sends. */
  lemma {:induction false} LastBatchShows(strip: Strip, batches: seq<Batch>, i: nat, k: nat)
    requires IsLastBatch(batches, i, k)
    ensures i in AfterBatches(strip, batches) && AfterBatches(strip, batches)[i] == batches[k].look
    decreases |batches|
  {
    var n := |batches| - 1;
    if k < n {
      assert IsLastBatch(batches[..n], i, k);
      LastBatchShows(strip, batches[..n], i, k);
      assert i !in batches[n].segments;
    }
  }

  /** Without such a batch it shows what it showed before. */
  lemma {:induction false} NoBatchShows(strip: Strip, batches: seq<Batch>, i: nat)
    requires forall k | 0 <= k < |batches| :: i !in batches[k].segments
    ensures var after := AfterBatches(strip, batches);
            (i in after <==> i in strip) && (i in strip ==> after[i] == strip[i])
    decreases |batches|
  {
    if batches != [] {
      assert i !in batches[|batches| - 1].segments;
      NoBatchShows(strip, batches[..|batches| - 1], i);
    }
  }

  ghost predicate IsLast(segments: seq<Segment>, l: int) {
    0 <= l < |segments| && forall m | l < m < |segments| :: segments[m].idx != segments[l].idx
  }

  /** Written one by one it shows what the last segment with its index shows. */
  lemma {:induction false} LastSegmentShows(strip: Strip, segments: seq<Segment>, l: nat)
    requires IsLast(segments, l)
    ensures var i, after := segments[l].idx, AfterEach(strip, segments); i in after && after[i] == segments[l].Shows()
    decreases |segments|
  {
    var n := |segments| - 1;
    if l < n {
      assert IsLast(segments[..n], l);
      LastSegmentShows(strip, segments[..n], l);
      assert segments[n].idx != segments[l].idx;
    }
  }

  lemma {:induction false} NoSegmentShows(strip: Strip, segments: seq<Segment>, i: nat)
    requires forall l | 0 <= l < |segments| :: segments[l].idx != i
    ensures var after := AfterEach(strip, segments);
            (i in after <==> i in strip) && (i in strip ==> after[i] == strip[i])
    decreases |segments|
  {
    if segments != [] {
      assert segments[|segments| - 1].idx != i;
      NoSegmentShows(strip, segments[..|segments| - 1], i);
    }
  }

  /** Of the looks captured for one index, its last one is none that was captured earlier on the strip than another. */
  ghost predicate LastLookIsLatest(segments: seq<Segment>) {
    forall k, l | 0 <= k <= l && IsLast(segments, l) && segments[k].idx == segments[l].idx ::
      FirstAt(segments, segments[k].Shows()) <= FirstAt(segments, segments[l].Shows())
  }

  /** The batch of a look. */
  lemma BatchOf(segments: seq<Segment>, s: Segment) returns (k: nat)
    requires s in segments
    ensures var batches := Grouped(segments);
            k < |batches| && batches[k].look == s.Shows() && s.idx in batches[k].segments
  {
    BatchesPartition(segments);
    assert Covered(Grouped(segments), s.Shows());
    k :| k < |Grouped(segments)| && Grouped(segments)[k].look == s.Shows();
    ShowingIs(segments, s.Shows());
  }

  /** The last batch with an index that was captured. */
  lemma LastBatch(batches: seq<Batch>, i: nat, k: nat) returns (last: nat)
    requires k < |batches| && i in batches[k].segments
    ensures k <= last && IsLastBatch(batches, i, last)
    decreases |batches| - k
  {
    if j :| k < j < |batches| && i in batches[j].segments {
      last := LastBatch(batches, i, j);
    } else {
      last := k;
    }
  }

  /** An index of a batch was captured with the batch's look. */
  lemma SegmentOf(segments: seq<Segment>, k: nat, i: nat) returns (m: nat)
    requires k < |Grouped(segments)| && i in Grouped(segments)[k].segments
    ensures m < |segments| && segments[m].idx == i && segments[m].Shows() == Grouped(segments)[k].look
  {
    BatchesPartition(segments);
    ShowingIs(segments, Grouped(segments)[k].look);
    var s :| s in segments && s.idx == i && s.Shows() == Grouped(segments)[k].look;
    m :| 0 <= m < |segments| && segments[m] == s;
  }

  /** At one index: the strips agree exactly when the last look is in the last batch. */
  lemma AgreeAtIndex(strip: Strip, segments: seq<Segment>, l: nat)
    requires IsLast(segments, l)
    ensures var i, a, b := segments[l].idx, AfterBatches(strip, Grouped(segments)), AfterEach(strip, segments);
            && i in a && i in b
            && (a[i] == b[i] <==> forall k | 0 <= k <= l && segments[k].idx == i ::
                  FirstAt(segments, segments[k].Shows()) <= FirstAt(segments, segments[l].Shows()))
  {
    hide AfterBatches, AfterEach, Grouped, FirstAt;
    var i, batches := segments[l].idx, Grouped(segments);
    var own := BatchOf(segments, segments[l]);
    var last := LastBatch(batches, i, own);
    LastBatchShows(strip, batches, i, last);
    LastSegmentShows(strip, segments, l);
    BatchesInOrder(segments);
    forall k | 0 <= k <= l && segments[k].idx == i
      ensures FirstAt(segments, segments[k].Shows()) <= FirstAt(segments, batches[last].look)
    {
      var p := BatchOf(segments, segments[k]);
      assert p <= last;
    }
    var m := SegmentOf(segments, last, i);
    assert m <= l && segments[m].Shows() == batches[last].look && segments[l].Shows() == batches[own].look;
  }

  lemma IndexHasLast(segments: seq<Segment>, k: nat) returns (l: nat)
    requires k < |segments|
    ensures k <= l && IsLast(segments, l) && segments[l].idx == segments[k].idx
    decreases |segments| - k
  {
    if m :| k < m < |segments| && segments[m].idx == segments[k].idx {
      l := IndexHasLast(segments, m);
    } else {
      l := k;
    }
  }

  /**
   * Grouped and one by one end in the same strip exactly when, for every index, no look captured for it was captured
   * later for the first time than the look it was captured with last.
   */
  lemma GroupedRestoreRefinesIff(strip: Strip, segments: seq<Segment>)
    ensures AfterBatches(strip, Grouped(segments)) == AfterEach(strip, segments) <==> LastLookIsLatest(segments)
  {
    hide AfterBatches, AfterEach, Grouped, FirstAt;
    var a, b := AfterBatches(strip, Grouped(segments)), AfterEach(strip, segments);
    forall l: nat | IsLast(segments, l)
      ensures var i := segments[l].idx;
              && i in a && i in b
              && (a[i] == b[i] <==> forall k | 0 <= k <= l && segments[k].idx == i ::
                    FirstAt(segments, segments[k].Shows()) <= FirstAt(segments, segments[l].Shows()))
    {
      AgreeAtIndex(strip, segments, l);
    }
    if LastLookIsLatest(segments) {
      forall i: nat ensures (i in a <==> i in b) && (i in b ==> a[i] == b[i]) {
        if k :| 0 <= k < |segments| && segments[k].idx == i {
          var l := IndexHasLast(segments, k);
        } else {
          NotCaptured(strip, segments, i);
        }
      }
    }
  }

  lemma NotCaptured(strip: Strip, segments: seq<Segment>, i: nat)
    requires forall k | 0 <= k < |segments| :: segments[k].idx != i
    ensures var a, b := AfterBatches(strip, Grouped(segments)), AfterEach(strip, segments);
            (i in a <==> i in b) && (i in b ==> a[i] == b[i])
  {
    var batches := Grouped(segments);
    BatchesPartition(segments);
    forall k | 0 <= k < |batches| ensures i !in batches[k].segments { ShowingIs(segments, batches[k].look); }
    NoBatchShows(strip, batches, i);
    NoSegmentShows(strip, segments, i);
  }

  /** So it is for distinct indices, and both callers number the segments by their place in the capture. */
  lemma GroupedRestoreRefines(strip: Strip, segments: seq<Segment>)
    requires forall j, k | 0 <= j < k < |segments| :: segments[j].idx != segments[k].idx
    ensures AfterBatches(strip, Grouped(segments)) == AfterEach(strip, segments)
  {
    hide AfterBatches, AfterEach, Grouped, FirstAt;
    GroupedRestoreRefinesIff(strip, segments);
  }

  /**
   * Then every captured segment shows its colour and brightness, black and full where they are missing, and every other
   * one what it showed.
   */
  lemma RestoredLooks(strip: Strip, segments: seq<Segment>, i: nat)
    requires forall j, k | 0 <= j < k < |segments| :: segments[j].idx != segments[k].idx
    ensures var after := AfterBatches(strip, Grouped(segments));
            && (forall s | s in segments && s.idx == i ::
                  && i in after
                  && after[i].color == (match s.color case Some(color) => color case None => 0)
                  && after[i].brightness == match s.brightness case Some(brightness) => brightness case None => 100)
            && ((forall s | s in segments :: s.idx != i) ==>
                  (i in after <==> i in strip) && (i in strip ==> after[i] == strip[i]))
  {
    hide AfterBatches, AfterEach, Grouped;
    GroupedRestoreRefines(strip, segments);
    if k :| 0 <= k < |segments| && segments[k].idx == i {
      LastSegmentShows(strip, segments, k);
    } else {
      NoSegmentShows(strip, segments, i);
    }
  }

  /** The colour mask of a batch, for indices the protocol can address: exactly the segments with that look. */
  method BatchMask(segments: seq<Segment>, b: Batch) returns (mask: seq<Byte>)
    requires b in Grouped(segments)
    ensures |mask| == 7
    ensures forall i | 0 <= i < 56 :: Bit(mask, i) <==> exists s :: s in segments && s.idx == i && s.Shows() == b.look
  {
    BatchesPartition(segments);
    ShowingIs(segments, b.look);
    mask := BuildSegmentBitmask(b.segments, 7);
  }
}
