/** What the id rule makes of the text of a SKU and of a device id, said of the characters alone. */
module DeviceIdText {
  import opened DeviceId
  import opened Ascii
  import Decimal
  import opened Filters

  /** A letter or a digit of ASCII, in either case. */
  predicate Plain(c: char) {
    'a' <= c <= 'z' || 'A' <= c <= 'Z' || '0' <= c <= '9'
  }

  /** Each character of `r` stands for one of `text`, in the order of `text`. */
  ghost predicate InTextOrder(r: string, text: string, from: seq<nat>) {
    && |from| == |r|
    && (forall m | 0 <= m < |from| :: from[m] < |text|)
    && (forall m, n | 0 <= m < n < |from| :: from[m] < from[n])
  }

  /**
   * `r` spells the letters and digits of `text` in lower case, all of them and in order; between two of them stands one
   * hyphen where `text` has other characters, and no other hyphen is there, in particular none at an end.
   */
  ghost predicate Slugs(r: string, text: string, from: seq<nat>) {
    && Runs(r, text, from)
    && (r != [] ==> r[0] != '-' && r[|r| - 1] != '-')
  }

  ghost predicate Runs(r: string, text: string, from: seq<nat>) {
    && InTextOrder(r, text, from) && AllStand(text, Plain, from)
    && (forall m | 0 <= m < |r| :: if Plain(text[from[m]]) then Lowers(text[from[m]], r[m]) else r[m] == '-')
    && HyphensBetween(r, from)
  }

  /** Every character of `text` that `keep` asks for stands in the result. */
  ghost predicate AllStand(text: string, keep: char -> bool, from: seq<nat>) {
    forall i: nat | i < |text| && keep(text[i]) :: i in from
  }

  /** One hyphen and no more between two characters that do not follow each other in the text, and none elsewhere. */
  ghost predicate HyphensBetween(r: string, from: seq<nat>) {
    forall m | 0 <= m < |r| - 1 && m < |from| - 1 ::
      && (r[m] == '-' ==> r[m + 1] != '-')
      && (r[m] != '-' && r[m + 1] != '-' ==> from[m + 1] == from[m] + 1)
  }

  /** `r` is the characters of `text` that `keep` asks for, in lower case, all of them and in order. */
  ghost predicate Picks(r: string, text: string, keep: char -> bool, from: seq<nat>) {
    && InTextOrder(r, text, from) && AllStand(text, keep, from)
    && (forall m | 0 <= m < |r| :: keep(text[from[m]]) && Lowers(text[from[m]], r[m]))
  }

  /** The model half of an id: the SKU slugged, or `device` when it has no letter and no digit. */
  ghost predicate IsModel(sku: string, model: string) {
    if exists c | c in sku :: Plain(c) then exists from :: Slugs(model, sku, from) else model == "device"
  }

  /** The device half: the letters and digits of Govee's id. */
  ghost predicate IsPiece(deviceId: string, piece: string) {
    exists from :: Picks(piece, deviceId, Plain, from)
  }

  // ----- the model half -----

  lemma LowerCharLowers(c: char)
    ensures Lowers(c, LowerChar(c)) && (Alnum(LowerChar(c)) <==> Plain(c))
  {
  }

  lemma ShiftedOrder(r: string, text: string, from: seq<nat>)
    requires text != [] && InTextOrder(r, text[1..], from)
    ensures InTextOrder(r, text, Shifted(from))
    ensures forall c :: InTextOrder([c] + r, text, [0] + Shifted(from))
    ensures forall m | 0 <= m < |r| :: text[Shifted(from)[m]] == text[1..][from[m]]
  {
  }

  lemma ShiftedStand(text: string, keep: char -> bool, from: seq<nat>)
    requires text != [] && AllStand(text[1..], keep, from)
    ensures AllStand(text, keep, [0] + Shifted(from))
    ensures !keep(text[0]) ==> AllStand(text, keep, Shifted(from))
  {
    forall i: nat | 0 < i < |text| && keep(text[i]) ensures i in Shifted(from) {
      assert text[1..][i - 1] == text[i];
      var m :| 0 <= m < |from| && from[m] == i - 1;
      assert Shifted(from)[m] == i;
    }
  }

  lemma SkipsFirst(r: string, text: string, from: seq<nat>)
    requires text != [] && Runs(r, text[1..], from) && !Plain(text[0])
    ensures Runs(r, text, Shifted(from))
  {
    ShiftedOrder(r, text, from);
    ShiftedStand(text, Plain, from);
    hide InTextOrder, AllStand;
  }

  lemma TakesFirst(c: char, r: string, text: string, from: seq<nat>)
    requires text != [] && Runs(r, text[1..], from)
    requires if Plain(text[0]) then Lowers(text[0], c) else c == '-'
    requires r != [] && c == '-' ==> r[0] != '-'
    requires r != [] && c != '-' && r[0] != '-' ==> from != [] && from[0] == 0
    ensures Runs([c] + r, text, [0] + Shifted(from))
  {
    ShiftedOrder(r, text, from);
    ShiftedStand(text, Plain, from);
    var more, at := [c] + r, [0] + Shifted(from);
    assert |from| == |r|;
    forall m | 0 <= m < |more|
      ensures at[m] < |text| && if Plain(text[at[m]]) then Lowers(text[at[m]], more[m]) else more[m] == '-'
    {
      if m > 0 { assert at[m] == Shifted(from)[m - 1] && more[m] == r[m - 1]; }
    }
    HyphenMore(c, r, from);
    hide InTextOrder, AllStand, HyphensBetween;
  }

  lemma HyphenMore(c: char, r: string, from: seq<nat>)
    requires HyphensBetween(r, from) && |from| == |r|
    requires r != [] && c == '-' ==> r[0] != '-'
    requires r != [] && c != '-' && r[0] != '-' ==> from[0] == 0
    ensures HyphensBetween([c] + r, [0] + Shifted(from))
  {
    var more, at := [c] + r, [0] + Shifted(from);
    forall m | 0 <= m < |more| - 1
      ensures more[m] == '-' ==> more[m + 1] != '-'
      ensures more[m] != '-' && more[m + 1] != '-' ==> at[m + 1] == at[m] + 1
    {
      assert more[m + 1] == r[m] && at[m + 1] == from[m] + 1;
      if m > 0 { assert more[m] == r[m - 1] && at[m] == from[m - 1] + 1; }
    }
  }

  lemma {:induction false} SlugRuns(s: string, inRun: bool) returns (from: seq<nat>)
    ensures var r := Slug(s, inRun);
            && Runs(r, s, from) && |from| == |r|
            && (r != [] && r[0] != '-' && !inRun ==> from[0] == 0)
            && (r != [] && inRun ==> r[0] != '-')
  {
    hide Runs;
    from := [];
    if s == [] {
      EmptyRuns();
    } else {
      LowerCharLowers(s[0]);
      if Plain(s[0]) {
        from := SlugRuns(s[1..], false);
        TakesFirst(LowerChar(s[0]), Slug(s[1..], false), s, from);
        from := [0] + Shifted(from);
      } else {
        from := SlugRuns(s[1..], true);
        if inRun {
          SkipsFirst(Slug(s[1..], true), s, from);
          from := Shifted(from);
        } else {
          TakesFirst('-', Slug(s[1..], true), s, from);
          from := [0] + Shifted(from);
        }
      }
    }
  }

  lemma EmptyRuns()
    ensures Runs([], [], [])
  {
  }

  /** `part` is what is left of `s` without the hyphens before `a` and from `b` on. */
  ghost predicate TrimmedTo(s: string, part: string, a: nat, b: nat) {
    && a <= b <= |s| && part == s[a..b]
    && forall m | 0 <= m < |s| && !(a <= m < b) :: s[m] == '-'
  }

  lemma {:induction false} TrimIsSlice(s: string) returns (a: nat, b: nat)
    requires IdText(s)
    ensures TrimmedTo(s, TrimHyphens(s), a, b)
    decreases |s|
  {
    hide TrimmedTo;
    a, b := 0, |s|;
    if s != [] && s[0] == '-' {
      a, b := TrimIsSlice(s[1..]);
      FrontTrimmed(s, TrimHyphens(s), a, b);
      a, b := a + 1, b + 1;
    } else if s != [] && s[|s| - 1] == '-' {
      a, b := TrimIsSlice(s[..|s| - 1]);
      EndTrimmed(s, TrimHyphens(s), a, b);
    } else {
      NothingTrimmed(s);
    }
  }

  lemma FrontTrimmed(s: string, part: string, a: nat, b: nat)
    requires s != [] && s[0] == '-' && TrimmedTo(s[1..], part, a, b)
    ensures TrimmedTo(s, part, a + 1, b + 1)
  {
    assert forall m | 0 < m < |s| :: s[m] == s[1..][m - 1];
  }

  lemma EndTrimmed(s: string, part: string, a: nat, b: nat)
    requires s != [] && s[|s| - 1] == '-' && TrimmedTo(s[..|s| - 1], part, a, b)
    ensures TrimmedTo(s, part, a, b)
  {
    assert forall m | 0 <= m < |s| - 1 :: s[m] == s[..|s| - 1][m];
  }

  lemma NothingTrimmed(s: string)
    ensures TrimmedTo(s, s, 0, |s|)
  {
  }

  lemma SliceRuns(r: string, text: string, from: seq<nat>, a: nat, b: nat)
    requires Runs(r, text, from) && a <= b <= |r| && forall m | 0 <= m < |r| && !(a <= m < b) :: r[m] == '-'
    ensures Runs(r[a..b], text, from[a..b])
  {
    forall i: nat | i < |text| && Plain(text[i]) ensures i in from[a..b] {
      var m :| 0 <= m < |from| && from[m] == i;
      assert r[m] != '-';
      assert from[a..b][m - a] == i;
    }
  }

  lemma ModelIs(sku: string)
    ensures IsModel(sku, ModelPart(sku))
  {
    var from := SlugRuns(sku, false);
    var a, b := TrimIsSlice(Slug(sku));
    SliceRuns(Slug(sku), sku, from, a, b);
    var slug, at := TrimHyphens(Slug(sku)), from[a..b];
    assert Slugs(slug, sku, at);
    if slug == [] {
      assert forall i | 0 <= i < |sku| :: !Plain(sku[i]);
    } else {
      assert Plain(sku[at[0]]) && sku[at[0]] in sku;
    }
  }

  // ----- the device half -----

  const NoColon := (c: char) => c != ':'

  lemma PickMore(c: char, r: string, text: string, keep: char -> bool, from: seq<nat>)
    requires text != [] && Picks(r, text[1..], keep, from)
    ensures !keep(text[0]) ==> Picks(r, text, keep, Shifted(from))
    ensures keep(text[0]) && Lowers(text[0], c) ==> Picks([c] + r, text, keep, [0] + Shifted(from))
  {
    ShiftedOrder(r, text, from);
    ShiftedStand(text, keep, from);
    if keep(text[0]) && Lowers(text[0], c) {
      PickFirst(c, r, text, keep, from, Shifted(from));
    } else if !keep(text[0]) {
      hide InTextOrder, AllStand, Lowers;
      assert forall m | 0 <= m < |r| :: text[Shifted(from)[m]] == text[1..][from[m]];
    }
  }

  lemma PickFirst(c: char, r: string, text: string, keep: char -> bool, from: seq<nat>, shifted: seq<nat>)
    requires |from| == |r| == |shifted| && text != [] && keep(text[0]) && Lowers(text[0], c)
    requires forall m | 0 <= m < |r| ::
               from[m] < |text| - 1 && shifted[m] < |text| && text[shifted[m]] == text[1..][from[m]]
    requires forall m | 0 <= m < |r| :: keep(text[1..][from[m]]) && Lowers(text[1..][from[m]], r[m])
    ensures var more, at := [c] + r, [0] + shifted;
            forall m | 0 <= m < |more| :: at[m] < |text| && keep(text[at[m]]) && Lowers(text[at[m]], more[m])
  {
    hide Lowers;
    var more, at := [c] + r, [0] + shifted;
    forall m | 0 <= m < |more| ensures at[m] < |text| && keep(text[at[m]]) && Lowers(text[at[m]], more[m]) {
      if m > 0 { assert at[m] == shifted[m - 1] && more[m] == r[m - 1]; }
    }
  }

  lemma {:induction false} NormalizedPicks(deviceId: string) returns (from: seq<nat>)
    ensures Picks(Normalized(deviceId), deviceId, NoColon, from)
  {
    from := [];
    if deviceId != [] {
      from := NormalizedPicks(deviceId[1..]);
      LowerCharLowers(deviceId[0]);
      PickMore(LowerChar(deviceId[0]), Normalized(deviceId[1..]), deviceId, NoColon, from);
      from := if deviceId[0] == ':' then Shifted(from) else [0] + Shifted(from);
    }
  }

  lemma {:induction false} PiecePicks(deviceId: string) returns (from: seq<nat>)
    ensures Picks(IdPiece(deviceId), deviceId, Plain, from)
  {
    hide Picks;
    if deviceId == [] {
      from := [];
      NothingPicked(Plain);
    } else {
      var rest := deviceId[1..];
      from := PiecePicks(rest);
      var c := LowerChar(deviceId[0]);
      LowerCharLowers(deviceId[0]);
      PickMore(c, IdPiece(rest), deviceId, Plain, from);
      PieceMore(deviceId);
      from := if Plain(deviceId[0]) then [0] + Shifted(from) else Shifted(from);
    }
  }

  lemma NothingPicked(keep: char -> bool)
    ensures Picks([], [], keep, [])
  {
  }

  lemma PieceMore(deviceId: string)
    requires deviceId != []
    ensures var c := LowerChar(deviceId[0]);
            IdPiece(deviceId) == (if Alnum(c) then [c] else []) + IdPiece(deviceId[1..])
  {
    var c, rest := LowerChar(deviceId[0]), Normalized(deviceId[1..]);
    if deviceId[0] == ':' {
      assert Normalized(deviceId) == rest;
    } else {
      assert ([c] + rest)[1..] == rest;
    }
  }

  // ----- the id -----

  /** The device key keeps every character of the id but its colons, in lower case. */
  lemma KeyText(sku: string, deviceId: string)
    ensures exists text, from :: MapKey(sku, deviceId) == sku + "_" + text && Picks(text, deviceId, NoColon, from)
  {
    var from := NormalizedPicks(deviceId);
    assert Picks(Normalized(deviceId), deviceId, NoColon, from);
  }

  /**
   * The id a device is given when it is first asked for: its model and the last four characters of its piece, unless
   * that is taken or reserved; then its model and its whole piece; then the first free number behind that. A device
   * without a piece begins with its model alone.
   */
  ghost predicate IsGiven(r: Registry, folder: string, model: string, piece: string, id: string) {
    var short := model + "-" + (if |piece| <= 4 then piece else piece[|piece| - 4..]);
    var base := if piece == [] then model else model + "-" + piece;
    if piece != [] && IsOpen(r, folder, short) then id == short
    else if IsOpen(r, folder, base) then id == base
    else IsNumbered(r, folder, base, id)
  }

  /** `base-n` with the least `n` from 2 on that is not taken. */
  ghost predicate IsNumbered(r: Registry, folder: string, base: string, id: string) {
    exists n: nat ::
      && n >= 2 && id == base + "-" + Decimal.Print(n) && IsOpen(r, folder, id)
      && forall i | 2 <= i < n :: !IsOpen(r, folder, base + "-" + Decimal.Print(i))
  }

  predicate IsOpen(r: Registry, folder: string, id: string) {
    folder + id !in r.byPrefix && id != "info"
  }

  lemma OpenIsFree(r: Registry, sku: string, id: string)
    ensures IsOpen(r, Folder(sku) + ".", id) <==> Free(id, r.IdsIn(Folder(sku)))
  {
    var folder := Folder(sku) + ".";
    assert folder <= folder + id && (folder + id)[|folder|..] == id;
    forall p | p in r.byPrefix && folder <= p && p[|folder|..] == id ensures p == folder + id {
      assert p == p[..|folder|] + p[|folder|..];
    }
  }

  /** A device asked for first is given its id by this rule, from the text of its SKU and of its own id. */
  lemma GivenByText(r: Registry, sku: string, deviceId: string) returns (model: string, piece: string, id: string)
    requires MapKey(sku, deviceId) !in r.byKey
    ensures IsModel(sku, model) && IsPiece(deviceId, piece)
    ensures var folder := if sku == "BaseGroup" then "groups." else "devices.";
            r.PrefixFor(sku, deviceId).1 == folder + id && IsGiven(r, folder, model, piece, id)
  {
    hide ModelPart, IdPiece, IsModel, Picks, Free, IsOpen, IsGiven, DeviceIdFor;
    model, piece, id := ModelPart(sku), IdPiece(deviceId), DeviceIdFor(sku, deviceId, r.IdsIn(Folder(sku)));
    ModelIs(sku);
    var from := PiecePicks(deviceId);
    GivenIs(r, sku, deviceId);
    assert Folder(sku) + "." == if sku == "BaseGroup" then "groups." else "devices.";
  }

  lemma GivenIs(r: Registry, sku: string, deviceId: string)
    ensures IsGiven(r, Folder(sku) + ".", ModelPart(sku), IdPiece(deviceId),
                DeviceIdFor(sku, deviceId, r.IdsIn(Folder(sku))))
  {
    hide ModelPart, IdPiece, Free, IsOpen, CountedId, IsNumbered;
    var folder, taken, id := Folder(sku) + ".", r.IdsIn(Folder(sku)), DeviceIdFor(sku, deviceId, r.IdsIn(Folder(sku)));
    var base := if IdPiece(deviceId) == [] then ModelPart(sku) else LongId(sku, deviceId);
    OpenIsFree(r, sku, ShortId(sku, deviceId));
    OpenIsFree(r, sku, base);
    if IdPiece(deviceId) != [] && IsOpen(r, folder, ShortId(sku, deviceId)) {
    } else {
      assert id == CountedId(base, taken);
      CountedIs(base, taken);
      if !Free(base, taken) { LadderIsOpen(r, sku, base); }
    }
  }

  lemma CountedIs(base: string, taken: set<string>)
    ensures Free(base, taken) ==> CountedId(base, taken) == base
  {
  }

  lemma LadderIsOpen(r: Registry, sku: string, base: string)
    requires !Free(base, r.IdsIn(Folder(sku)))
    ensures IsNumbered(r, Folder(sku) + ".", base, CountedId(base, r.IdsIn(Folder(sku))))
  {
    hide Free, IsOpen;
    var taken := r.IdsIn(Folder(sku));
    var n := FreeRung(base, 2, taken);
    OpenIsFree(r, sku, Rung(base, n));
    forall i: nat | 2 <= i < n ensures !IsOpen(r, Folder(sku) + ".", base + "-" + Decimal.Print(i)) {
      OpenIsFree(r, sku, Rung(base, i));
    }
  }
}
