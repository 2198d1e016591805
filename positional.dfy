/** Big-endian positional notation: the arithmetic under Base58 text and
    under byte strings read as unsigned integers. */
module Positional {

  /** The natural number whose big-endian digits in `base` are `ds`. */
  function ValueOf(ds: seq<nat>, base: nat): nat
  {
    if |ds| == 0 then 0 else ValueOf(ds[..|ds| - 1], base) * base + ds[|ds| - 1]
  }

  /** Every element of `ds` is a digit of `base`. */
  predicate IsDigits(ds: seq<nat>, base: nat)
  {
    forall i :: 0 <= i < |ds| ==> ds[i] < base
  }

  /** Digits of `base` with no leading zero: the shortest spelling of a number. */
  predicate Canonical(ds: seq<nat>, base: nat)
  {
    IsDigits(ds, base) && (|ds| == 0 || ds[0] != 0)
  }

  /** The shortest big-endian digit sequence of `n` in `base`; empty for zero. */
  function DigitsOf(n: nat, base: nat): (ds: seq<nat>)
    requires base >= 2
    ensures Canonical(ds, base)
    ensures ValueOf(ds, base) == n
    ensures n == 0 <==> ds == []
    decreases n
  {
    if n == 0 then []
    else
      var high := DigitsOf(n / base, base);
      var ds := high + [n % base];
      DivMod(n, base);
      assert ds[..|ds| - 1] == high;
      ds
  }

  /** Euclidean division by `base`. */
  lemma DivMod(n: nat, base: nat)
    requires base >= 2
    ensures n == n / base * base + n % base && n % base < base
    ensures n / base == 0 ==> n == n % base
  {
  }

  /** Division by `base` undoes appending one digit. */
  lemma DivModAppend(q: nat, r: nat, base: nat)
    requires base >= 2 && r < base
    ensures (q * base + r) / base == q
    ensures (q * base + r) % base == r
  {
    var v := q * base + r;
    var q', r' := v / base, v % base;
    assert v == q' * base + r';
    assert 0 <= r' < base;
    if q' < q {
      assert q * base - q' * base == (q - q') * base;
      MulAtLeast(q - q', base);
    } else if q < q' {
      assert q' * base - q * base == (q' - q) * base;
      MulAtLeast(q' - q, base);
    }
  }

  lemma MulAtLeast(d: int, base: int)
    requires d >= 1 && base >= 0
    ensures d * base >= base
  {
  }

  /** A canonical non-empty spelling denotes a positive number. */
  lemma {:induction false} ValueOfPositive(ds: seq<nat>, base: nat)
    requires base >= 2 && Canonical(ds, base) && |ds| > 0
    ensures ValueOf(ds, base) > 0
  {
    var high := ds[..|ds| - 1];
    if |high| > 0 {
      ValueOfPositive(high, base);
    }
  }

  /** Reading a canonical spelling and writing the number back gives the
      same spelling: canonical spellings and numbers are in bijection. */
  lemma {:induction false} DigitsOfValueOf(ds: seq<nat>, base: nat)
    requires base >= 2 && Canonical(ds, base)
    ensures DigitsOf(ValueOf(ds, base), base) == ds
  {
    if |ds| > 0 {
      var high, low := ds[..|ds| - 1], ds[|ds| - 1];
      ValueOfPositive(ds, base);
      DivModAppend(ValueOf(high, base), low, base);
      DigitsOfValueOf(high, base);
      assert ds == high + [low];
    }
  }
}
