/** Python's `round`: to the nearest, ties to the even neighbour, on exact reals. */
module Rounding {

  function RoundInt(x: real): int {
    var n := x.Floor;
    var rest := x - n as real;
    if rest < 0.5 || (rest == 0.5 && n % 2 == 0) then n else n + 1
  }

  /** `round(x, 4)` */
  function Round4(x: real): real {
    RoundInt(x * 10000.0) as real / 10000.0
  }

  /** `round(x, 2)` */
  function Round2(x: real): real {
    RoundInt(x * 100.0) as real / 100.0
  }

  lemma RoundIntNear(x: real)
    ensures x - 0.5 <= RoundInt(x) as real <= x + 0.5
  {
  }

  lemma RoundIntMonotone(x: real, y: real)
    requires x <= y
    ensures RoundInt(x) <= RoundInt(y)
  {
    if y.Floor > x.Floor {
      assert RoundInt(x) <= x.Floor + 1;
    }
  }

  lemma RoundIntExact(n: int)
    ensures RoundInt(n as real) == n
  {
  }

  lemma Round4Near(x: real)
    ensures x - 0.00005 <= Round4(x) <= x + 0.00005
  {
    RoundIntNear(x * 10000.0);
  }

  lemma Round4Monotone(x: real, y: real)
    requires x <= y
    ensures Round4(x) <= Round4(y)
  {
    RoundIntMonotone(x * 10000.0, y * 10000.0);
  }

  lemma Round4Unit()
    ensures Round4(0.0) == 0.0 && Round4(1.0) == 1.0
  {
    RoundIntExact(0);
    RoundIntExact(10000);
  }

  lemma Round2Near(x: real)
    ensures x - 0.005 <= Round2(x) <= x + 0.005
  {
    RoundIntNear(x * 100.0);
  }

  lemma Round2Monotone(x: real, y: real)
    requires x <= y
    ensures Round2(x) <= Round2(y)
  {
    RoundIntMonotone(x * 100.0, y * 100.0);
  }

  /** Two shares of an even number of parts never round to more than all the parts: two ties cannot both go up. */
  lemma SharesDoNotOverflow(x: real, y: real, parts: int)
    requires x + y <= parts as real && parts % 2 == 0
    ensures RoundInt(x) + RoundInt(y) <= parts
  {
    var m, n := x.Floor, y.Floor;
    var f, g := x - m as real, y - n as real;
    assert RoundInt(x) == m + 1 ==> f >= 0.5;
    assert RoundInt(y) == n + 1 ==> g >= 0.5;
    assert f == 0.5 && g == 0.5 && m % 2 == 0 ==> RoundInt(x) == m;
  }

  function TenThousandths(m: int): real {
    m as real / 10000.0
  }

  function Hundredths(m: int): real {
    m as real / 100.0
  }

  /** Nearest whole number, and the even one of two that are equally near. */
  lemma RoundIntIff(x: real, k: int)
    ensures RoundInt(x) == k <==>
            k as real - 0.5 < x < k as real + 0.5 || (k % 2 == 0 && (x == k as real - 0.5 || x == k as real + 0.5))
  {
  }

  /** `round(x, 4)` is the nearest number with four decimals, a tie going to the even last digit. */
  lemma Round4Iff(x: real, k: int)
    ensures Round4(x) == TenThousandths(k) <==>
            || (k as real - 0.5 < 10000.0 * x < k as real + 0.5)
            || (k % 2 == 0 && (10000.0 * x == k as real - 0.5 || 10000.0 * x == k as real + 0.5))
    ensures exists m: int :: Round4(x) == TenThousandths(m)
  {
    RoundIntIff(x * 10000.0, k);
    assert Round4(x) == TenThousandths(RoundInt(x * 10000.0));
  }

  /** `round(x, 2)` likewise with two decimals. */
  lemma Round2Iff(x: real, k: int)
    ensures Round2(x) == Hundredths(k) <==>
            || (k as real - 0.5 < 100.0 * x < k as real + 0.5)
            || (k % 2 == 0 && (100.0 * x == k as real - 0.5 || 100.0 * x == k as real + 0.5))
    ensures exists m: int :: Round2(x) == Hundredths(m)
  {
    RoundIntIff(x * 100.0, k);
    assert Round2(x) == Hundredths(RoundInt(x * 100.0));
  }
}
