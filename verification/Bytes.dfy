/** Bytes, and the decimal numerals the NATS protocol writes on the wire. */
module Bytes {
  type byte = x: int | 0 <= x < 256
  type bytes = seq<byte>

  datatype Option<+T> = None | Some(value: T)

  const ZERO: byte := 48
  const NINE: byte := 57

  predicate IsDigit(b: byte) {
    ZERO <= b <= NINE
  }

  /** The decimal numeral of n, without leading zeros. */
  function Numeral(n: nat): (s: bytes)
    ensures s != []
    ensures forall i :: 0 <= i < |s| ==> IsDigit(s[i])
  {
    if n < 10 then [ZERO + n] else Numeral(n / 10) + [ZERO + n % 10]
  }

  /** The number a numeral stands for. */
  function ValueOf(s: bytes): (n: nat)
    requires forall i :: 0 <= i < |s| ==> IsDigit(s[i])
  {
    if s == [] then
      0
    else
      assert IsDigit(s[|s| - 1]);
      10 * ValueOf(s[..|s| - 1]) + (s[|s| - 1] - ZERO)
  }

  lemma {:induction false} NumeralValue(n: nat)
    ensures ValueOf(Numeral(n)) == n
  {
    var s := Numeral(n);
    if n < 10 {
      assert s[..0] == [];
    } else {
      assert s[..|s| - 1] == Numeral(n / 10);
      NumeralValue(n / 10);
    }
  }

  function Pow10(k: nat): (p: nat)
    ensures p >= 1
  {
    if k == 0 then 1 else 10 * Pow10(k - 1)
  }

  /** A number below 10^k is written with at most k digits. */
  lemma {:induction false} NumeralLength(n: nat, k: nat)
    requires k >= 1 && n < Pow10(k)
    ensures |Numeral(n)| <= k
  {
    if n >= 10 {
      assert k > 1;
      NumeralLength(n / 10, k - 1);
    }
  }

  /** A numeral of at most k digits stands for a number below 10^k. */
  lemma {:induction false} ValueBound(s: bytes, k: nat)
    requires forall i :: 0 <= i < |s| ==> IsDigit(s[i])
    requires |s| <= k
    ensures ValueOf(s) < Pow10(k)
  {
    if s != [] {
      assert IsDigit(s[|s| - 1]);
      ValueBound(s[..|s| - 1], k - 1);
    }
  }

  /** Different numbers have different numerals. */
  lemma NumeralInjective(m: nat, n: nat)
    requires Numeral(m) == Numeral(n)
    ensures m == n
  {
    NumeralValue(m);
    NumeralValue(n);
  }

  function Flatten(chunks: seq<bytes>): bytes {
    if chunks == [] then [] else chunks[0] + Flatten(chunks[1..])
  }

  lemma Reassociate<T>(x: seq<T>, y: seq<T>, z: seq<T>)
    ensures (x + y) + z == x + (y + z)
  {
  }
}
