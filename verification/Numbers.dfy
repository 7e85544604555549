/** Decimal numerals, as `fmt.Sprint` writes and `strconv.Atoi` reads them. */
module Numbers {
  predicate Digits(s: string) {
    s != "" && forall i | 0 <= i < |s| :: '0' <= s[i] <= '9'
  }

  function Decimal(s: string): nat
    requires forall i | 0 <= i < |s| :: '0' <= s[i] <= '9'
  {
    if s == "" then 0 else 10 * Decimal(s[..|s| - 1]) + (s[|s| - 1] as int - '0' as int)
  }

  function Numeral(n: nat): (s: string)
    ensures Digits(s) && Decimal(s) == n
    ensures s != "" && '0' <= s[0] <= '9' && '0' <= s[|s| - 1] <= '9'
  {
    var d := [('0' as int + n % 10) as char];
    if n < 10 then d
    else
      var s := Numeral(n / 10) + d;
      assert s[..|s| - 1] == Numeral(n / 10);
      s
  }

  lemma NumeralsDiffer(m: nat, n: nat)
    requires Numeral(m) == Numeral(n)
    ensures m == n
  {}
}
