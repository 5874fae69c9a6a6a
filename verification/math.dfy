/** Numeric and array helpers (src/lib/utils/math.ts). */
module MathUtils {
  import opened Seqs

  function Min(a: real, b: real): real {
    if a <= b then a else b
  }

  function Max(a: real, b: real): real {
    if a >= b then a else b
  }

  /** `clamp(value, min, max) = Math.max(min, Math.min(max, value))`. */
  function Clamp(value: real, min: real, max: real): (r: real)
    ensures min <= max ==> min <= r <= max
    ensures min <= value <= max ==> r == value
    ensures value < min ==> r == min
    ensures min <= max && max < value ==> r == max
    ensures max < min ==> r == min
  {
    Max(min, Min(max, value))
  }

  function Abs(n: int): nat {
    if n < 0 then -n else n
  }

  /** JavaScript's `%`: truncating division, so the remainder takes the sign
      of the dividend (Dafny's own `%` is Euclidean). */
  function JsRem(a: int, b: int): (r: int)
    requires b != 0
    ensures Abs(r) < Abs(b)
    ensures (a - r) % b == 0
    ensures a >= 0 ==> r >= 0
    ensures a <= 0 ==> r <= 0
  {
    if a >= 0 then
      var r := a % Abs(b);
      DivisibleDifference(a, b);
      r
    else
      var r := -((-a) % Abs(b));
      DivisibleDifference(-a, b);
      NegDivisible(-a - (-a) % Abs(b), b);
      r
  }

  /** Taking off the Euclidean remainder by `|b|` leaves a multiple of `b`. */
  lemma DivisibleDifference(a: int, b: int)
    requires b != 0
    ensures (a - a % Abs(b)) % b == 0
  {
    var m: int := Abs(b);
    var q := a / m;
    assert a == q * m + a % m;
    if b > 0 {
      MultipleMod(q, b);
    } else {
      assert m == -b;
      assert q * m == (-q) * b;
      MultipleMod(-q, b);
    }
  }

  /** A nonzero multiple of `b` is at least `|b|` away from zero. */
  lemma MultipleSize(k: int, b: int)
    requires k != 0 && b != 0
    ensures k * b >= Abs(b) || -(k * b) >= Abs(b)
  {
    var kk: int := Abs(k);
    var bb: int := Abs(b);
    assert kk * bb == bb + (kk - 1) * bb;
    assert (kk - 1) * bb >= 0;
    assert k * b == kk * bb || -(k * b) == kk * bb;
  }

  /** Every multiple of `b` leaves remainder 0. */
  lemma MultipleMod(q: int, b: int)
    requires b != 0
    ensures (q * b) % b == 0
  {
    var x := q * b;
    var d := x / b;
    var e := x % b;
    assert x == d * b + e;
    assert e == (q - d) * b;
    if q - d != 0 {
      MultipleSize(q - d, b);
    }
  }

  /** Two multiples of `m`, less `m`, give a multiple of `m`. */
  lemma SumOfMultiples(x: int, y: int, m: int)
    requires m != 0 && x % m == 0 && y % m == 0
    ensures (x + y - m) % m == 0
  {
    assert x == (x / m) * m + x % m;
    assert y == (y / m) * m + y % m;
    assert x + y - m == (x / m + y / m - 1) * m;
    MultipleMod(x / m + y / m - 1, m);
  }

  /** The negation of a multiple of `b` is a multiple of `b`. */
  lemma NegDivisible(x: int, b: int)
    requires b != 0 && x % b == 0
    ensures (-x) % b == 0
  {
    var q := x / b;
    assert x == q * b + x % b;
    assert -x == (-q) * b;
    MultipleMod(-q, b);
  }

  /** `mod(n, m) = ((n % m) + m) % m`: for a positive modulus, the Euclidean
      remainder, which is never negative. */
  function Mod(n: int, m: int): (r: int)
    requires m != 0
    ensures m > 0 ==> 0 <= r < m && r == n % m
    ensures m < 0 ==> m < r <= 0
    ensures (n - r) % m == 0
  {
    var t := JsRem(n, m) + m;
    SumOfMultiples(n - JsRem(n, m), t - JsRem(t, m), m);
    if m > 0 then
      if n >= 0 then
        ShiftMod(n % m, m);
        JsRem(t, m)
      else
        NegMod(n, m);
        JsRem(t, m)
    else
      JsRem(t, m)
  }

  lemma ShiftMod(x: int, m: int)
    requires m > 0 && 0 <= x < m
    ensures (x + m) % m == x
  {
  }

  lemma NegMod(n: int, m: int)
    requires m > 0 && n < 0
    ensures (-((-n) % m) + m) % m == n % m
  {
    var p := -n;
    var q := p / m;
    var x := p % m;
    assert p == q * m + x;
    if x == 0 {
      ModUnique(n, m, -q, 0);
      ModUnique(m, m, 1, 0);
    } else {
      assert n == (-q - 1) * m + (m - x);
      ModUnique(n, m, -q - 1, m - x);
      ModUnique(m - x, m, 0, m - x);
    }
  }

  /** Euclidean division is unique. */
  lemma ModUnique(n: int, m: int, q: int, r: int)
    requires m > 0 && 0 <= r < m && n == q * m + r
    ensures n % m == r
  {
    var d := q - n / m;
    assert n == (n / m) * m + n % m;
    assert d * m == n % m - r;
  }

  /** `getDifferenceStringArrays(A, B)`: the elements of A absent from B, in
      A's order, followed by the elements of B absent from A, in B's order. */
  function GetDifferenceStringArrays(a: seq<string>, b: seq<string>): (r: seq<string>)
    ensures forall x :: x in r <==> (x in a && x !in b) || (x in b && x !in a)
    ensures exists k :: 0 <= k <= |r| && OnlyIn(r[..k], a, b) && OnlyIn(r[k..], b, a)
  {
    var onlyA := Without(a, b);
    var onlyB := Without(b, a);
    SplitConcat(onlyA, onlyB, a, b);
    onlyA + onlyB
  }

  /** `a.filter(x => !b.includes(x))`. */
  function Without(a: seq<string>, b: seq<string>): (r: seq<string>)
    ensures forall x :: x in r <==> x in a && x !in b
    ensures OnlyIn(r, a, b)
  {
    Filter(a, x => x !in b)
  }

  /** The two filtered halves can be read back from their concatenation. */
  lemma SplitConcat(onlyA: seq<string>, onlyB: seq<string>, a: seq<string>, b: seq<string>)
    requires OnlyIn(onlyA, a, b) && OnlyIn(onlyB, b, a)
    ensures OnlyIn((onlyA + onlyB)[..|onlyA|], a, b) && OnlyIn((onlyA + onlyB)[|onlyA|..], b, a)
  {
    assert (onlyA + onlyB)[..|onlyA|] == onlyA && (onlyA + onlyB)[|onlyA|..] == onlyB;
  }

  /** `part` is `a` with the elements of `b` filtered out: in `a`'s order,
      with nothing from `b`, and every other element as often as in `a`. */
  ghost predicate OnlyIn(part: seq<string>, a: seq<string>, b: seq<string>) {
    && IsSubsequence(part, a)
    && (forall i :: 0 <= i < |part| ==> part[i] !in b)
    && (forall x :: x !in b ==> multiset(part)[x] == multiset(a)[x])
  }

  lemma DifferenceOfIdentical(a: seq<string>)
    ensures GetDifferenceStringArrays(a, a) == []
  {
    var r := GetDifferenceStringArrays(a, a);
    assert forall x :: x !in r;
  }

  /** `haveMutual(a, b)`: scans `b` for an element that also occurs in `a`. */
  method HaveMutual<T(==)>(a: seq<T>, b: seq<T>) returns (found: bool)
    ensures found <==> exists i :: 0 <= i < |b| && b[i] in a
    ensures a == [] || b == [] ==> !found
  {
    var i := 0;
    while i < |b|
      invariant 0 <= i <= |b|
      invariant forall j :: 0 <= j < i ==> b[j] !in a
    {
      if b[i] in a {
        return true;
      }
      i := i + 1;
    }
    return false;
  }
}
