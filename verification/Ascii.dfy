/** Letters and white space of ASCII text. */
module Ascii {
  function LowerChar(c: char): char {
    if 'A' <= c <= 'Z' then (c as int - 'A' as int + 'a' as int) as char else c
  }

  function Lower(s: string): string {
    seq(|s|, i requires 0 <= i < |s| => LowerChar(s[i]))
  }

  predicate IsSpace(c: char) {
    c == ' ' || '\t' <= c <= '\r'
  }

  function TrimStart(s: string): (t: string)
    ensures |t| <= |s| && t == s[|s| - |t|..]
  {
    if s != [] && IsSpace(s[0]) then TrimStart(s[1..]) else s
  }

  function TrimEnd(s: string): (t: string)
    ensures |t| <= |s| && t == s[..|t|]
  {
    if s != [] && IsSpace(s[|s| - 1]) then TrimEnd(s[..|s| - 1]) else s
  }

  function Trim(s: string): string {
    TrimEnd(TrimStart(s))
  }

  /** `d` is `c` in lower case. */
  predicate Lowers(c: char, d: char) {
    if 'A' <= c <= 'Z' then d as int == c as int + 32 else d == c
  }

  lemma LowerLowers(s: string)
    ensures |Lower(s)| == |s| && forall i | 0 <= i < |s| :: Lowers(s[i], Lower(s)[i])
  {
  }

  /** Space, and the codes from tab to carriage return. */
  predicate White(c: char) {
    c as int == 32 || 9 <= c as int <= 13
  }

  /** What is trimmed off is white space, and nothing that stays begins or ends with it. */
  lemma TrimTrims(s: string) returns (a: nat, b: nat)
    ensures a <= b <= |s| && Trim(s) == s[a..b]
    ensures forall i | 0 <= i < |s| && !(a <= i < b) :: White(s[i])
    ensures a < b ==> !White(s[a]) && !White(s[b - 1])
  {
    hide TrimStart, TrimEnd;
    var rest := TrimStart(s);
    a, b := |s| - |rest|, |s| - |rest| + |Trim(s)|;
    StartTrims(s);
    EndTrims(rest);
    assert forall i | 0 <= i < |rest| :: rest[i] == s[a + i];
    assert forall i | b <= i < |s| :: s[i] == rest[i - a];
  }

  lemma {:induction false} StartTrims(s: string)
    ensures forall i | 0 <= i < |s| - |TrimStart(s)| :: White(s[i])
    ensures TrimStart(s) != "" ==> !White(TrimStart(s)[0])
  {
    if s != "" && IsSpace(s[0]) {
      StartTrims(s[1..]);
      assert forall i | 0 < i < |s| :: s[i] == s[1..][i - 1];
    }
  }

  lemma {:induction false} EndTrims(s: string)
    ensures forall i | |TrimEnd(s)| <= i < |s| :: White(s[i])
    ensures TrimEnd(s) != "" ==> !White(TrimEnd(s)[|TrimEnd(s)| - 1])
  {
    if s != "" && IsSpace(s[|s| - 1]) { EndTrims(s[..|s| - 1]); }
  }
}
