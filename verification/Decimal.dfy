/** Printing a number the way a template string does, and the pigeonhole step of every "first free name" loop. */
module Decimal {

  const DIGITS := "0123456789"

  function Print(n: nat): (s: string)
    ensures s != []
    ensures forall i | 0 <= i < |s| :: '0' <= s[i] <= '9'
  {
    if n < 10 then [DIGITS[n]] else Print(n / 10) + [DIGITS[n % 10]]
  }

  /** The number a printed text stands for. */
  function Read(s: string): nat
    requires forall i | 0 <= i < |s| :: '0' <= s[i] <= '9'
  {
    if s == [] then 0 else 10 * Read(s[..|s| - 1]) + (s[|s| - 1] as int - '0' as int)
  }

  lemma {:induction false} ReadPrint(n: nat)
    ensures Read(Print(n)) == n
  {
    if n >= 10 {
      ReadPrint(n / 10);
      assert Print(n)[..|Print(n)| - 1] == Print(n / 10);
    }
  }

  /** Two numbers that print alike are equal. */
  lemma PrintInjective(m: nat, n: nat)
    requires Print(m) == Print(n)
    ensures m == n
  {
    ReadPrint(m);
    ReadPrint(n);
  }

  /** An integer, with its sign. */
  function PrintInt(n: int): (s: string)
    ensures s != []
    ensures n >= 0 ==> s == Print(n)
  {
    if n < 0 then "-" + Print(-n) else Print(n)
  }

  lemma SignShows(n: int)
    ensures n < 0 <==> PrintInt(n)[0] == '-'
  {
    if n >= 0 { assert '0' <= Print(n)[0] <= '9'; }
  }

  lemma PrintIntInjective(m: int, n: int)
    requires PrintInt(m) == PrintInt(n)
    ensures m == n
  {
    SignShows(m);
    SignShows(n);
    if m < 0 {
      assert PrintInt(m)[1..] == Print(-m) && PrintInt(n)[1..] == Print(-n);
      PrintInjective(-m, -n);
    } else {
      PrintInjective(m, n);
    }
  }

  /**
   * The first number from `n` on whose name is not taken. It exists because the names are pairwise
   * distinct and only finitely many are taken.
   */
  function FirstFree(n: nat, name: nat -> string, taken: set<string>): (k: nat)
    requires forall i, j :: n <= i < j ==> name(i) != name(j)
    ensures k >= n && name(k) !in taken
    ensures forall i :: n <= i < k ==> name(i) in taken
    decreases taken
  {
    if name(n) in taken then
      FirstFree(n + 1, name, taken - {name(n)})
    else
      n
  }
}
