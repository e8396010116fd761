/**
 * Rounding to a multiple of a base and powers of ten (fpbiolib/rounders.py).
 * Python's `x / base` raises ZeroDivisionError for a zero base; that is the
 * only failure of the two rounding functions.
 */
module Rounders {
  import opened Wrappers

  datatype RoundError = ZeroDivision

  /** The least integer not below r (Python's math.ceil). */
  function Ceil(r: real): (c: int)
    ensures r <= c as real < r + 1.0
  {
    -((-r).Floor)
  }

  /** v is an integer multiple of base. */
  predicate IsMultipleOf(v: real, base: real)
    requires base != 0.0
  {
    (v / base).Floor as real == v / base
  }

  /** base * ceil(x / base) */
  function BaseRoundup(x: real, base: real := 5.0): (r: Result<real, RoundError>)
    ensures r.Failure? <==> base == 0.0
    ensures r.Success? ==> IsMultipleOf(r.value, base)
    ensures r.Success? && base > 0.0 ==> x <= r.value < x + base
    ensures r.Success? && base < 0.0 ==> x + base < r.value <= x
  {
    if base == 0.0 then Failure(ZeroDivision)
    else
      var q := x / base;
      var k := Ceil(q);
      MulDiv(x, base);
      RoundupFacts(x, base, q, k);
      Success(base * k as real)
  }

  /** base * floor(x / base); the source's docstring says "Rounds up", but the code rounds down. */
  function BaseRounddown(x: real, base: real := 5.0): (r: Result<real, RoundError>)
    ensures r.Failure? <==> base == 0.0
    ensures r.Success? ==> IsMultipleOf(r.value, base)
    ensures r.Success? && base > 0.0 ==> x - base < r.value <= x
    ensures r.Success? && base < 0.0 ==> x <= r.value < x - base
  {
    if base == 0.0 then Failure(ZeroDivision)
    else
      var q := x / base;
      var k := q.Floor;
      MulDiv(x, base);
      RounddownFacts(x, base, q, k);
      Success(base * k as real)
  }

  lemma ScaleLe(c: real, a: real, b: real)
    requires c > 0.0 && a <= b
    ensures c * a <= c * b
  {
    assert c * b - c * a == c * (b - a);
  }

  lemma ScaleLt(c: real, a: real, b: real)
    requires c > 0.0 && a < b
    ensures c * a < c * b
  {
    assert c * b - c * a == c * (b - a);
  }

  lemma MulDiv(x: real, base: real)
    requires base != 0.0
    ensures base * (x / base) == x
  {}

  /** base times an integer is a multiple of base. */
  lemma MultipleOfInteger(base: real, k: int)
    requires base != 0.0
    ensures IsMultipleOf(base * k as real, base)
  {
    assert (base * k as real) / base == k as real;
    assert (k as real).Floor == k;
  }

  /** With c > 0 and c * q == x: k at most one above q puts c * k at most c above x. */
  lemma AboveBy(x: real, c: real, q: real, k: real)
    requires c > 0.0 && c * q == x && q <= k < q + 1.0
    ensures x <= c * k
    ensures c * k < x + c
  {
    ScaleLe(c, q, k);
    ScaleLt(c, k, q + 1.0);
    assert c * (q + 1.0) == c * q + c;
  }

  /** With c > 0 and c * q == x: k at most one below q puts c * k at most c below x. */
  lemma BelowBy(x: real, c: real, q: real, k: real)
    requires c > 0.0 && c * q == x && k <= q < k + 1.0
    ensures c * k <= x
    ensures x - c < c * k
  {
    ScaleLe(c, k, q);
    LessThanNext(x, c, q, k);
  }

  lemma LessThanNext(x: real, c: real, q: real, k: real)
    requires c > 0.0 && c * q == x && q < k + 1.0
    ensures x < c * k + c
  {
    ScaleLt(c, q, k + 1.0);
    assert c * (k + 1.0) == c * k + c;
  }

  /** The bounds of the upward rounding, for either sign of the base. */
  lemma RoundupFacts(x: real, base: real, q: real, k: int)
    requires base != 0.0 && base * q == x && q <= k as real < q + 1.0
    ensures IsMultipleOf(base * k as real, base)
    ensures base > 0.0 ==> x <= base * k as real < x + base
    ensures base < 0.0 ==> x + base < base * k as real <= x
  {
    MultipleOfInteger(base, k);
    var kr := k as real;
    if base > 0.0 {
      AboveBy(x, base, q, kr);
    } else {
      assert (-base) * q == -x;
      AboveBy(-x, -base, q, kr);
      assert (-base) * kr == -(base * kr);
    }
  }

  /** The bounds of the downward rounding, for either sign of the base. */
  lemma RounddownFacts(x: real, base: real, q: real, k: int)
    requires base != 0.0 && base * q == x && k as real <= q < k as real + 1.0
    ensures IsMultipleOf(base * k as real, base)
    ensures base > 0.0 ==> x - base < base * k as real <= x
    ensures base < 0.0 ==> x <= base * k as real < x - base
  {
    MultipleOfInteger(base, k);
    var kr := k as real;
    if base > 0.0 {
      BelowBy(x, base, q, kr);
    } else {
      assert (-base) * q == -x;
      BelowBy(-x, -base, q, kr);
      assert (-base) * kr == -(base * kr);
    }
  }

  /** Without a base, both roundings go to a multiple of 5. */
  lemma DefaultBaseExample()
    ensures BaseRoundup(12.0) == Success(15.0)
    ensures BaseRounddown(12.0) == Success(10.0)
  {
  }

  /** When x is already a multiple of base, both roundings return x. */
  lemma {:induction false} MultipleIsFixed(x: real, base: real)
    requires base != 0.0 && IsMultipleOf(x, base)
    ensures BaseRoundup(x, base) == Success(x)
    ensures BaseRounddown(x, base) == Success(x)
  {
    var q := x / base;
    assert q.Floor as real == q;
    assert Ceil(q) == q.Floor by {
      assert -q == (-(q.Floor)) as real;
      assert (-q).Floor == -(q.Floor);
    }
    assert base * q == x;
  }

  /** Python's `10 ** i` for an integer i (a float for negative i). */
  function Pow10(i: int): real
    decreases if i < 0 then -i else i
  {
    if i == 0 then 1.0
    else if i > 0 then 10.0 * Pow10(i - 1)
    else Pow10(i + 1) / 10.0
  }

  /** One more in the exponent is a factor ten, on both sides of zero. */
  lemma Pow10Succ(i: int)
    ensures Pow10(i + 1) == 10.0 * Pow10(i)
  {
  }

  /** Powers of ten are positive and turn addition of exponents into multiplication. */
  lemma {:induction false} Pow10Add(a: int, b: int)
    ensures Pow10(a) > 0.0
    ensures Pow10(a + b) == Pow10(a) * Pow10(b)
    decreases if a < 0 then -a else a
  {
    if a > 0 {
      Pow10Add(a - 1, b);
      Pow10Succ(a - 1 + b);
    } else if a < 0 {
      Pow10Add(a + 1, b);
      Pow10Succ(a + b);
      Pow10Succ(a);
      assert Pow10(a + b) == Pow10(a + 1 + b) / 10.0;
    }
  }

  /** The argument of ten_to_the_x: a list or a single value. */
  datatype Exponents = Scalar(e: int) | List(es: seq<int>)
  datatype Powers = ScalarPower(p: real) | ListPower(ps: seq<real>)

  /** A list becomes the list of its powers of ten (built by appending); a scalar its power. */
  method TenToTheX(value: Exponents) returns (r: Powers)
    ensures value.Scalar? <==> r.ScalarPower?
    ensures value.Scalar? ==> r.p == Pow10(value.e)
    ensures value.List? ==> |r.ps| == |value.es|
    ensures value.List? ==> forall k :: 0 <= k < |value.es| ==> r.ps[k] == Pow10(value.es[k])
  {
    match value {
      case Scalar(e) =>
        r := ScalarPower(Pow10(e));
      case List(es) =>
        var valueList: seq<real> := [];
        for i := 0 to |es|
          invariant |valueList| == i
          invariant forall k :: 0 <= k < i ==> valueList[k] == Pow10(es[k])
        {
          valueList := valueList + [Pow10(es[i])];
        }
        r := ListPower(valueList);
    }
  }
}
