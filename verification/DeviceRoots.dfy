/**
 * The two roots of one device while refused writes and crashes pile up: its old one and the one the rule gives it. Of
 * each only three things matter: the mark, the journal, and whether everything of the device stands below it.
 */
module DeviceRoots {
  import opened Options

  datatype Root = Gone | Here(marked: bool, journal: bool, whole: bool)

  /** A tree a start takes as complete. */
  predicate Complete(r: Root) {
    r.Here? && r.marked && !r.journal
  }

  predicate MarkedThere(r: Root) {
    r.Here? && r.marked
  }

  predicate WholeThere(r: Root) {
    r.Here? && r.whole
  }

  /** The old root `s` and the new one `t`, when the old one sorts first. */
  predicate GoodOldFirst(s: Root, t: Root) {
    && (WholeThere(s) || (MarkedThere(t) && t.whole))
    && (MarkedThere(t) && !MarkedThere(s) ==> t.whole)
    && (MarkedThere(s) && s.journal ==> t.Gone? || (!t.marked && t.journal) || (t.marked && !t.journal))
  }

  /** And when the new one does: nothing ever moves back. */
  predicate GoodNewFirst(s: Root, t: Root) {
    && (WholeThere(s) || (Complete(t) && t.whole))
    && !MarkedThere(s)
    && (t.Here? ==> !t.journal && (s.Gone? || s.journal))
  }

  predicate Good(oldFirst: bool, s: Root, t: Root) {
    if oldFirst then GoodOldFirst(s, t) else GoodNewFirst(s, t)
  }

  // ----- a move from one root to the other -----

  /** The copy skips a target that is marked and not known to be complete. */
  predicate Skips(dst: Root, fill: bool) {
    !fill && MarkedThere(dst)
  }

  /** The target once everything was copied. */
  predicate Copied(src: Root, dst: Root, fill: bool, later: Root)
    requires src.Here? && (fill ==> MarkedThere(dst))
  {
    if Skips(dst, fill) then later == dst
    else
      && later.Here? && (src.whole || WholeThere(dst) ==> later.whole)
      && later.marked && later.journal == (fill && dst.journal)
  }

  /** The target while the copy is on its way. */
  predicate Copying(src: Root, dst: Root, fill: bool, later: Root)
    requires src.Here? && (fill ==> MarkedThere(dst))
  {
    if Skips(dst, fill) then later == dst
    else
      || (dst.Gone? && later.Gone?)
      || (dst.Here? && later.Here? && later.marked == dst.marked && later.journal == dst.journal
          && (dst.whole ==> later.whole))
      || (!fill && later.Here? && later.marked == src.marked && !later.journal && (WholeThere(dst) ==> later.whole))
      || Copied(src, dst, fill, later)
  }

  /** The journal of the source once the move has written it, or not written it because the listing had it. */
  function Moving(src: Root, listed: bool, fill: bool): Root
    requires src.Here?
  {
    if fill || listed then src else src.(journal := true)
  }

  /** The same root with some of its tree deleted, or all. */
  predicate Shrunk(src: Root, later: Root)
    requires src.Here?
  {
    later.Gone? || (later.marked == src.marked && later.journal == src.journal)
  }

  /** The two roots at any point of a move from `src` to `dst`. */
  predicate MovePasses(src: Root, dst: Root, listed: bool, fill: bool, src': Root, dst': Root)
    requires src.Here? && (fill ==> MarkedThere(dst))
  {
    var moving := Moving(src, listed, fill);
    || (src' == src && dst' == dst)
    || (src' == moving && Copying(src, dst, fill, dst'))
    || (Shrunk(moving, src') && Copied(src, dst, fill, dst'))
  }

  // ----- a start, seen from one device -----

  /**
   * The roots, what the registry says (nothing, the old root, the new one), which roots are known to be complete, which
   * journals the listing showed, and which roots still wait.
   */
  datatype Device = Device(
    s: Root, t: Root, told: Option<bool>, completeS: bool, completeT: bool,
    listedS: bool, listedT: bool, waitsS: bool, waitsT: bool)

  /** The new root? An unknown device is told it. */
  predicate ToldNew(d: Device) {
    d.told.None? || d.told.value
  }

  predicate Unfinished(r: Root) {
    r.Here? && !r.marked && r.journal
  }

  /** A device as a start finds it: complete roots first, then journals, each only if the device is not known yet. */
  predicate Seeded(d: Device) {
    && (if Complete(d.s) || Complete(d.t) then
          || (d.told == Some(false) && Complete(d.s) && d.completeS && !d.completeT)
          || (d.told == Some(true) && Complete(d.t) && d.completeT && !d.completeS)
        else
          && !d.completeS && !d.completeT
          && match d.told
             case None => !Unfinished(d.s) && !Unfinished(d.t)
             case Some(toNew) => if toNew then Unfinished(d.s) else Unfinished(d.t))
    && d.waitsS == (d.s.Here? && !d.completeS) && d.waitsT == (d.t.Here? && !d.completeT)
    && d.listedS == (d.s.Here? && d.s.journal) && d.listedT == (d.t.Here? && d.t.journal)
  }

  /** Once the old root was dealt with, or was none to deal with, and the new one still waits. */
  predicate NewWaits(d: Device) {
    && d.t.Here?
    && if ToldNew(d) then d.s.Gone?
       else
         && !d.completeT && (d.completeS ==> MarkedThere(d.s)) && (Complete(d.s) ==> d.completeS)
         && (MarkedThere(d.s) && !d.completeS ==> d.s.whole)
         && (MarkedThere(d.s) && d.s.journal ==> !d.t.marked)
  }

  /** Once the new root was dealt with, or was none to deal with, and the old one still waits. */
  predicate OldWaits(d: Device) {
    d.s.Here? && ToldNew(d) && !d.completeS && (MarkedThere(d.t) <==> d.completeT) && (d.listedS ==> d.s.journal)
  }

  /** What makes every tree that still waits safe to handle. */
  predicate Ready(oldFirst: bool, d: Device) {
    && Good(oldFirst, d.s, d.t)
    && if oldFirst then (if d.waitsS then Seeded(d) else d.waitsT ==> NewWaits(d))
       else (if d.waitsT then Seeded(d) else d.waitsS ==> OldWaits(d))
  }

  lemma SeededIsReady(oldFirst: bool, d: Device)
    requires Good(oldFirst, d.s, d.t) && Seeded(d)
    ensures Ready(oldFirst, d)
  {
  }

  /** It is the waiting root that sorts first. */
  predicate IsNext(oldFirst: bool, d: Device, onNew: bool) {
    if onNew then d.waitsT && (oldFirst ==> !d.waitsS) else d.waitsS && (!oldFirst ==> !d.waitsT)
  }

  /** The root that is handled, and what is known of the other one. */
  function Own(d: Device, onNew: bool): Root {
    if onNew then d.t else d.s
  }

  function Other(d: Device, onNew: bool): Root {
    if onNew then d.s else d.t
  }

  predicate Fills(d: Device, onNew: bool) {
    if onNew then d.completeS else d.completeT
  }

  /** It stands, and a target known to be complete carries the mark. */
  lemma NextStands(oldFirst: bool, d: Device, onNew: bool)
    requires Ready(oldFirst, d) && IsNext(oldFirst, d, onNew)
    ensures Own(d, onNew).Here?
    ensures ToldNew(d) != onNew && Fills(d, onNew) ==> MarkedThere(Other(d, onNew))
    ensures ToldNew(d) != onNew && Skips(Other(d, onNew), Fills(d, onNew)) ==> Other(d, onNew).whole
  {
  }

  /** The roots at any point of handling one waiting root. */
  predicate Passes(d: Device, onNew: bool, own: Root, other: Root)
    requires Own(d, onNew).Here? && (ToldNew(d) != onNew && Fills(d, onNew) ==> MarkedThere(Other(d, onNew)))
  {
    if ToldNew(d) == onNew then
      other == Other(d, onNew) && (own == Own(d, onNew) || own == Own(d, onNew).(marked := true))
    else
      MovePasses(Own(d, onNew), Other(d, onNew), if onNew then d.listedT else d.listedS, Fills(d, onNew), own, other)
  }

  /** The roots once it was dealt with. */
  predicate Ends(d: Device, onNew: bool, own: Root, other: Root)
    requires Own(d, onNew).Here? && (ToldNew(d) != onNew && Fills(d, onNew) ==> MarkedThere(Other(d, onNew)))
  {
    if ToldNew(d) == onNew then other == Other(d, onNew) && own == Own(d, onNew).(marked := true)
    else own.Gone? && Copied(Own(d, onNew), Other(d, onNew), Fills(d, onNew), other)
  }

  function WithRoots(d: Device, onNew: bool, own: Root, other: Root): Device {
    if onNew then d.(s := other, t := own, waitsT := false) else d.(s := own, t := other, waitsS := false)
  }

  /** After a root was dealt with: the device is at the target, which is complete. */
  function AfterDone(d: Device, onNew: bool, own: Root, other: Root): Device {
    var toNew := ToldNew(d);
    WithRoots(d, onNew, own, other).(told := Some(toNew), completeS := d.completeS || !toNew, completeT := d.completeT
        || toNew)
  }

  /** After a refused write: the device stays where the root is. */
  function AfterRefusal(d: Device, onNew: bool, own: Root, other: Root): Device {
    WithRoots(d, onNew, own, other).(told := Some(onNew))
  }

  /** Whatever point the handling of the next root is stopped at, the roots are good. */
  lemma PointIsGood(oldFirst: bool, d: Device, onNew: bool, own: Root, other: Root)
    requires Ready(oldFirst, d) && IsNext(oldFirst, d, onNew) && Own(d, onNew).Here?
    requires ToldNew(d) != onNew && Fills(d, onNew) ==> MarkedThere(Other(d, onNew))
    requires Passes(d, onNew, own, other)
    ensures var later := WithRoots(d, onNew, own, other); Good(oldFirst, later.s, later.t)
  {
  }

  /** And what still waits after a refused write is ready; a refused mark changed nothing. */
  lemma RefusalKeepsReady(oldFirst: bool, d: Device, onNew: bool, own: Root, other: Root)
    requires Ready(oldFirst, d) && IsNext(oldFirst, d, onNew) && Own(d, onNew).Here?
    requires ToldNew(d) != onNew && Fills(d, onNew) ==> MarkedThere(Other(d, onNew))
    requires Passes(d, onNew, own, other) && (ToldNew(d) == onNew ==> own == Own(d, onNew))
    ensures Ready(oldFirst, AfterRefusal(d, onNew, own, other))
  {
    PointIsGood(oldFirst, d, onNew, own, other);
  }

  lemma DoneKeepsReady(oldFirst: bool, d: Device, onNew: bool, own: Root, other: Root)
    requires Ready(oldFirst, d) && IsNext(oldFirst, d, onNew) && Own(d, onNew).Here?
    requires ToldNew(d) != onNew && Fills(d, onNew) ==> MarkedThere(Other(d, onNew))
    requires Ends(d, onNew, own, other)
    ensures Ready(oldFirst, AfterDone(d, onNew, own, other))
  {
  }

  // ----- a start in which nothing is refused -----

  /** One root is gone, the other one has the mark and everything. */
  predicate OneRoot(d: Device) {
    if d.s.Gone? then MarkedThere(d.t) && d.t.whole else d.t.Gone? && d.s.marked && d.s.whole
  }

  /** On the way there: once nothing waits, one root is left. */
  predicate Settling(oldFirst: bool, d: Device) {
    && (!d.waitsS && !d.waitsT ==> OneRoot(d))
    && (oldFirst && !d.waitsS && d.waitsT && !ToldNew(d) ==> d.completeS)
  }

  lemma SeededSettles(oldFirst: bool, d: Device)
    requires Good(oldFirst, d.s, d.t) && Seeded(d)
    ensures Settling(oldFirst, d)
  {
  }

  lemma DoneSettles(oldFirst: bool, d: Device, onNew: bool, own: Root, other: Root)
    requires Ready(oldFirst, d) && Settling(oldFirst, d) && IsNext(oldFirst, d, onNew) && Own(d, onNew).Here?
    requires ToldNew(d) != onNew && Fills(d, onNew) ==> MarkedThere(Other(d, onNew))
    requires Ends(d, onNew, own, other)
    ensures Settling(oldFirst, AfterDone(d, onNew, own, other))
  {
    DoneKeepsReady(oldFirst, d, onNew, own, other);
  }
}
