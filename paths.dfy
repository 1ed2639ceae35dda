/**
 * BIP-44 derivation paths of the two branches of account 0 on testnet
 * (coin type 1): `m/44'/1'/0'/0/<index>` for receiving addresses and
 * `m/44'/1'/0'/1/<index>` for change addresses. The index is rendered the way
 * a JavaScript template literal renders an integer, so `-1` (the result of a
 * failed `findIndex`) becomes `"-1"`.
 */
module Paths {
  import opened Wallet

  const ReceivePrefix: string := "m/44'/1'/0'/0/"
  const ChangePrefix: string := "m/44'/1'/0'/1/"

  predicate IsDigit(c: char) {
    '0' <= c <= '9'
  }

  predicate AllDigits(s: string) {
    forall i :: 0 <= i < |s| ==> IsDigit(s[i])
  }

  /** Decimal digits of `n`, most significant first. */
  function NatToDecimal(n: nat): string {
    if n < 10 then [('0' as int + n) as char]
    else NatToDecimal(n / 10) + [('0' as int + n % 10) as char]
  }

  /** An integer as a JavaScript template literal prints it. */
  function IntToDecimal(i: int): string {
    if i < 0 then "-" + NatToDecimal(-i) else NatToDecimal(i)
  }

  /** A rendered natural is a non-empty digit string with no leading zero. */
  lemma {:induction false} NatToDecimalDigits(n: nat)
    ensures var s := NatToDecimal(n); |s| > 0 && AllDigits(s) && (|s| > 1 ==> s[0] != '0')
  {
    if n >= 10 {
      NatToDecimalDigits(n / 10);
    }
  }

  /** A rendered integer is non-empty and starts with a minus sign exactly when
      it is negative. */
  lemma IntToDecimalSign(i: int)
    ensures |IntToDecimal(i)| > 0
    ensures IntToDecimal(i)[0] == '-' <==> i < 0
  {
    NatToDecimalDigits(if i < 0 then -i else i);
  }

  /** The value of a string of decimal digits. */
  function DigitsValue(s: string): nat
    requires AllDigits(s)
  {
    if |s| == 0 then 0
    else DigitsValue(s[..|s| - 1]) * 10 + (s[|s| - 1] as int - '0' as int)
  }

  /** Reads back a rendered integer: an optional minus sign and at least one digit. */
  function ParseInt(s: string): Option<int> {
    if |s| > 0 && s[0] == '-' then
      var t := s[1..];
      if |t| > 0 && AllDigits(t) then Some(0 - DigitsValue(t) as int) else None
    else if |s| > 0 && AllDigits(s) then Some(DigitsValue(s))
    else None
  }

  lemma {:induction false} NatToDecimalValue(n: nat)
    ensures AllDigits(NatToDecimal(n)) && DigitsValue(NatToDecimal(n)) == n
  {
    NatToDecimalDigits(n);
    if n >= 10 {
      var s := NatToDecimal(n);
      assert s[..|s| - 1] == NatToDecimal(n / 10);
      NatToDecimalValue(n / 10);
    }
  }

  /** Rendering an integer and reading it back gives the integer. */
  lemma DecimalRoundTrip(i: int)
    ensures ParseInt(IntToDecimal(i)) == Some(i)
  {
    if i < 0 {
      NatToDecimalValue(-i);
      assert IntToDecimal(i)[1..] == NatToDecimal(-i);
    } else {
      NatToDecimalValue(i);
    }
  }

  /** Two integers render alike only when they are equal. */
  lemma DecimalInjective(i: int, j: int)
    requires IntToDecimal(i) == IntToDecimal(j)
    ensures i == j
  {
    DecimalRoundTrip(i);
    DecimalRoundTrip(j);
  }

  /** The `derivePath` string stored with a record: branch prefix, then index. */
  function PathOf(prefix: string, index: int): string {
    prefix + IntToDecimal(index)
  }

  /** The index a stored path names under `prefix`, if it is such a path. */
  function IndexOfPath(prefix: string, path: string): Option<int> {
    if |prefix| <= |path| && path[..|prefix|] == prefix then ParseInt(path[|prefix|..])
    else None
  }

  /** A stored path names exactly the index it was built from. */
  lemma PathRoundTrip(prefix: string, index: int)
    ensures IndexOfPath(prefix, PathOf(prefix, index)) == Some(index)
  {
    var p := PathOf(prefix, index);
    assert p[..|prefix|] == prefix;
    assert p[|prefix|..] == IntToDecimal(index);
    DecimalRoundTrip(index);
  }

  /** No receiving path is a change path and vice versa. */
  lemma BranchesDisjoint(i: int, j: int)
    ensures IndexOfPath(ChangePrefix, PathOf(ReceivePrefix, i)) == None
    ensures IndexOfPath(ReceivePrefix, PathOf(ChangePrefix, j)) == None
  {
    var r := PathOf(ReceivePrefix, i);
    var c := PathOf(ChangePrefix, j);
    assert r[12] == '0' && ChangePrefix[12] == '1';
    assert c[12] == '1' && ReceivePrefix[12] == '0';
  }
}
