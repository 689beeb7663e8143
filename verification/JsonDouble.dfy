/** The numbers normalizeNumber computes exponents with: the integers of
    ECMAScript's Number type (IEEE 754 doubles), and their text. */
module JsonDouble {
  import opened JsonText
  import opened JsonNumber

  /** 2 to the 53: up to here every integer is a double. */
  const TWO_53: int := 9007199254740992

  /** An integer double, or an infinity. */
  datatype Double = Finite(n: int) | Infinite(neg: bool)

  function Pow2(n: nat): (p: nat)
    ensures p > 0
  {
    if n == 0 then 1 else 2 * Pow2(n - 1)
  }

  /** The distance of the doubles around n. */
  function Ulp(n: nat): (u: nat)
    ensures u > 0
  {
    if n < TWO_53 then 1 else 2 * Ulp(n / 2)
  }

  /** The nearest double; of two, the even one. */
  function RoundNat(n: nat): nat {
    var u := Ulp(n);
    var q, r := n / u, n % u;
    if 2 * r < u || (2 * r == u && q % 2 == 0) then q * u else (q + 1) * u
  }

  function Round(n: int): Double {
    var r: int := RoundNat(if n < 0 then -n else n);
    if r >= Pow2(1024) then Infinite(n < 0) else Finite(if n < 0 then -r else r)
  }

  /** d + k */
  function Plus(d: Double, k: int): Double {
    match d
    case Finite(n) => Round(n + k)
    case Infinite(neg) => d
  }

  // --- text ---

  /** The multiples of unit next to n: the nearer one first; of two, the even one. */
  function Multiples(n: nat, unit: nat): (nat, nat)
    requires unit > 0
  {
    var q, r := n / unit, n % unit;
    if 2 * r < unit || (2 * r == unit && q % 2 == 0) then (q * unit, (q + 1) * unit) else ((q + 1) * unit, q * unit)
  }

  /** The number with the fewest significant digits that rounds to n, its last digit
      at a place up to `place`; of several the nearest. */
  function Shortest(n: nat, place: nat): nat {
    if place == 0 then n
    else
      var m := Multiples(n, Pow10(place));
      if RoundNat(m.0) == n then m.0 else if RoundNat(m.1) == n then m.1 else Shortest(n, place - 1)
  }

  const INFINITY: Text := [0x49, 0x6E, 0x66, 0x69, 0x6E, 0x69, 0x74, 0x79]

  /** Number::toString of a natural number: from 1e21 on with an exponent. */
  function ShowNat(n: nat): Text {
    if n <= TWO_53 then Decimal(n)
    else
      var digits := Decimal(Shortest(n, |Decimal(n)|));
      if n < Pow10(21) then digits
      else
        var s := StripTrailing(digits);
        (if |s| > 1 then s[..1] + [POINT] + s[1..] else s) + [SMALL_E, PLUS] + Decimal(|digits| - 1)
  }

  function Show(d: Double): Text {
    match d
    case Finite(n) => if n < 0 then [MINUS] + ShowNat(-n) else ShowNat(n)
    case Infinite(neg) => if neg then [MINUS] + INFINITY else INFINITY
  }

  // --- exact up to 2^53 ---

  lemma {:induction false} Pow2Grows(m: nat, n: nat)
    requires m <= n
    ensures Pow2(m) <= Pow2(n)
  {
    if m < n {
      Pow2Grows(m, n - 1);
    }
  }

  lemma TwoTo64()
    ensures Pow2(64) == 0x1_0000_0000_0000_0000
  {
    assert Pow2(8) == 256;
    assert Pow2(16) == 65536;
    assert Pow2(24) == 0x100_0000;
    assert Pow2(32) == 0x1_0000_0000;
    assert Pow2(40) == 0x100_0000_0000;
    assert Pow2(48) == 0x1_0000_0000_0000;
    assert Pow2(56) == 0x100_0000_0000_0000;
  }

  lemma SmallIsFinite(n: nat)
    requires n < 0x1_0000_0000_0000_0000
    ensures n < Pow2(1024)
  {
    hide Pow2;
    TwoTo64();
    Pow2Grows(64, 1024);
  }

  /** Integers up to 2^53 are exact, the next one is not. */
  lemma RoundIsExact(n: int)
    requires -TWO_53 <= n <= TWO_53
    ensures Round(n) == Finite(n)
  {
    hide Pow2;
    SmallIsFinite(TWO_53);
    if n == TWO_53 || n == -TWO_53 {
      UlpAbove(TWO_53);
    }
  }

  lemma UlpAbove(n: nat)
    requires TWO_53 <= n < 2 * TWO_53
    ensures Ulp(n) == 2
  {
    assert n / 2 < TWO_53;
  }

  lemma RoundAbove()
    ensures Round(TWO_53 + 1) == Finite(TWO_53) && Round(-(TWO_53 + 1)) == Finite(-TWO_53)
    ensures Round(TWO_53 + 2) == Finite(TWO_53 + 2)
  {
    hide Pow2;
    SmallIsFinite(TWO_53 + 2);
    UlpAbove(TWO_53 + 1);
    UlpAbove(TWO_53 + 2);
  }

  // --- rounding is to nearest, ties to even ---

  /** u is the distance of the doubles around n: a power of two by which n has at most 53 binary digits,
      and no fewer than that unless it is one. */
  lemma {:induction false} UlpIs(n: nat) returns (k: nat)
    ensures Ulp(n) == Pow2(k) && n < 0x20_0000_0000_0000 * Ulp(n)
    ensures k > 0 ==> n >= 0x10_0000_0000_0000 * Ulp(n)
    ensures k == 0 ==> Ulp(n) == 1
  {
    if n < TWO_53 {
      k := 0;
    } else {
      var j := UlpIs(n / 2);
      k := j + 1;
    }
  }

  /** Rounding gives a multiple of that distance, none is nearer, and of two it is the even one. */
  lemma RoundIsNearest(n: nat) returns (q: nat)
    ensures RoundNat(n) == q * Ulp(n)
    ensures 0 - Ulp(n) <= 2 * (RoundNat(n) - n) <= Ulp(n)
    ensures 2 * (RoundNat(n) - n) == Ulp(n) || 2 * (RoundNat(n) - n) == 0 - Ulp(n) ==> q % 2 == 0
  {
    hide Ulp;
    var u := Ulp(n);
    var r := n % u;
    assert n == n / u * u + r;
    q := if 2 * r < u || (2 * r == u && n / u % 2 == 0) then n / u else n / u + 1;
    assert (n / u + 1) * u == n / u * u + u;
  }
}
