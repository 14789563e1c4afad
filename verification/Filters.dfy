/** What it means that a list is the part of another one that is asked for. */
module Filters {

  /** `kept` is what `keep` asks for of `all`, all of it and in order; it stands at the places `from`. */
  ghost predicate IsFilter<T(!new)>(all: seq<T>, keep: T -> bool, kept: seq<T>, from: seq<nat>) {
    && |from| == |kept| && Rising(from) && (forall i | i in from :: i < |all|)
    && (forall m | 0 <= m < |from| :: from[m] < |all| && kept[m] == all[from[m]])
    && (forall i: nat | i < |all| :: i in from <==> keep(all[i]))
  }

  ghost predicate Rising(from: seq<nat>) {
    forall m, n | 0 <= m < n < |from| :: from[m] < from[n]
  }

  lemma NothingFiltered<T(!new)>(keep: T -> bool)
    ensures IsFilter([], keep, [], [])
  {
  }

  /** Where everything is asked for, nothing is left out. */
  lemma AllFiltered<T(!new)>(all: seq<T>, keep: T -> bool) returns (from: seq<nat>)
    requires forall i | 0 <= i < |all| :: keep(all[i])
    ensures IsFilter(all, keep, all, from)
  {
    from := seq(|all|, i requires 0 <= i < |all| => i);
    forall i: nat | i < |all| ensures i in from { assert from[i] == i; }
  }

  /** One more element behind. */
  lemma FilterMore<T(!new)>(all: seq<T>, keep: T -> bool, kept: seq<T>, from: seq<nat>)
    requires all != [] && IsFilter(all[..|all| - 1], keep, kept, from)
    ensures var n := |all| - 1;
            if keep(all[n]) then IsFilter(all, keep, kept + [all[n]], from + [n]) else IsFilter(all, keep, kept, from)
  {
    var n := |all| - 1;
    assert forall i | 0 <= i < n :: all[..n][i] == all[i];
    assert forall i: nat :: i in from + [n] <==> i in from || i == n;
  }

  function Shifted(from: seq<nat>): (r: seq<nat>)
    ensures |r| == |from| && forall m | 0 <= m < |from| :: r[m] == from[m] + 1
  {
    seq(|from|, m requires 0 <= m < |from| => from[m] + 1)
  }

  lemma ShiftedHas(from: seq<nat>, i: nat)
    ensures i + 1 in Shifted(from) <==> i in from
  {
    if i in from {
      var m :| 0 <= m < |from| && from[m] == i;
      assert Shifted(from)[m] == i + 1;
    }
  }

  /** One more element in front. */
  lemma FilterFront<T(!new)>(all: seq<T>, keep: T -> bool, kept: seq<T>, from: seq<nat>)
    requires all != [] && IsFilter(all[1..], keep, kept, from)
    ensures if keep(all[0]) then IsFilter(all, keep, [all[0]] + kept, [0] + Shifted(from))
            else IsFilter(all, keep, kept, Shifted(from))
  {
    var shifted := Shifted(from);
    forall i: nat | 0 < i < |all| ensures i in shifted <==> keep(all[i]) {
      ShiftedHas(from, i - 1);
      assert all[1..][i - 1] == all[i];
    }
    assert 0 !in shifted;
    forall m | 0 <= m < |from| ensures kept[m] == all[shifted[m]] && shifted[m] < |all| {
      assert all[1..][from[m]] == all[shifted[m]];
    }
    if keep(all[0]) { FrontKept(all, keep, kept, shifted); }
  }

  lemma FrontKept<T(!new)>(all: seq<T>, keep: T -> bool, kept: seq<T>, shifted: seq<nat>)
    requires all != [] && keep(all[0]) && |shifted| == |kept| && Rising(shifted) && 0 !in shifted
    requires forall m | 0 <= m < |kept| :: shifted[m] < |all| && kept[m] == all[shifted[m]]
    requires forall i: nat | 0 < i < |all| :: i in shifted <==> keep(all[i])
    ensures IsFilter(all, keep, [all[0]] + kept, [0] + shifted)
  {
    var from, more := [0] + shifted, [all[0]] + kept;
    assert Rising(from) by { RisingFront(shifted); }
    forall m | 0 <= m < |from| ensures from[m] < |all| && more[m] == all[from[m]] {
      if m > 0 { assert from[m] == shifted[m - 1] && more[m] == kept[m - 1]; }
    }
    forall i: nat ensures i in from <==> i == 0 || i in shifted {}
    hide Rising;
  }

  lemma RisingFront(shifted: seq<nat>)
    requires Rising(shifted) && 0 !in shifted
    ensures Rising([0] + shifted)
  {
    var from := [0] + shifted;
    forall m, n | 0 <= m < n < |from| ensures from[m] < from[n] {
      assert from[n] == shifted[n - 1] && shifted[n - 1] in shifted;
      if m > 0 { assert from[m] == shifted[m - 1]; }
    }
  }
}
