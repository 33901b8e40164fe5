/** Small arithmetic and collection helpers shared by the other modules. */
module Prelude {

  /** An `unsigned char`. */
  type Byte = b: int | 0 <= b < 256

  const NO_INFORMATION: Byte := 255
  const LETHAL_OBSTACLE: Byte := 254
  const INSCRIBED_INFLATED_OBSTACLE: Byte := 253
  const FREE_SPACE: Byte := 0

  function Min(a: int, b: int): int { if a <= b then a else b }

  function Max(a: int, b: int): int { if a >= b then a else b }

  function Abs(a: int): nat { if a >= 0 then a else -a }

  /** C++ integer division, which truncates toward zero. */
  function TruncDiv(a: int, b: int): int
    requires b != 0
  {
    if (a >= 0) == (b > 0) then Abs(a) / Abs(b) else -(Abs(a) / Abs(b))
  }

  /** What truncating division is: the quotient is short of the exact one, on the
      side of zero, by less than one. */
  lemma TruncDivIs(a: int, b: int)
    requires b != 0
    ensures var q := TruncDiv(a, b);
      Abs(b * q) <= Abs(a) && Abs(a - b * q) < Abs(b)
  {
    var n: int, m: int := Abs(a), Abs(b);
    var q := n / m;
    FloorDivIs(n, m);
    NegativeFactor(m, q);
    NegativeFactor(q, m);
    assert a >= 0 && b > 0 ==> b * TruncDiv(a, b) == m * q;
    assert a >= 0 && b < 0 ==> b * TruncDiv(a, b) == (-m) * (-q) == m * q;
    assert a < 0 && b > 0 ==> b * TruncDiv(a, b) == m * (-q) == -(m * q);
    assert a < 0 && b < 0 ==> b * TruncDiv(a, b) == (-m) * q == -(m * q);
    hide TruncDiv;
  }

  lemma FloorDivIs(n: nat, m: nat)
    requires m > 0
    ensures 0 <= m * (n / m) <= n && 0 <= n - m * (n / m) < m
  {
    assert n == m * (n / m) + n % m;
    ProductNonNegative(m, n / m);
  }

  lemma NegativeFactor(a: int, b: int)
    ensures (-a) * b == -(a * b) == b * (-a) && (-a) * (-b) == a * b
  {
  }

  /** `static_cast<int>` of a floating-point value: truncation toward zero. */
  function Truncate(r: real): int { if r >= 0.0 then r.Floor else -((-r).Floor) }

  /** What truncation is: short of the number, on the side of zero, by less than one. */
  lemma TruncateIs(r: real)
    ensures AbsReal(Truncate(r) as real) <= AbsReal(r) && AbsReal(r - Truncate(r) as real) < 1.0
  {
  }

  function AbsReal(r: real): real { if r >= 0.0 then r else -r }

  function MinReal(a: real, b: real): real { if a <= b then a else b }

  function MaxReal(a: real, b: real): real { if a >= b then a else b }

  /** Real multiplication under a name, so that a proof can hide it. */
  function Times(a: real, b: real): real { a * b }

  lemma ProductNonNegative(a: int, b: int)
    requires a >= 0 && b >= 0
    ensures a * b >= 0
  {
  }

  /** Of two permutations, the last element of one is somewhere in the other,
      and what is left are permutations again. */
  lemma PermutationStep<T>(a: seq<T>, b: seq<T>) returns (k: nat)
    requires multiset(a) == multiset(b) && a != []
    ensures k < |b| && b[k] == a[|a| - 1] && b == b[..k] + [b[k]] + b[k + 1..]
    ensures a == a[..|a| - 1] + [b[k]]
    ensures multiset(a[..|a| - 1]) == multiset(b[..k] + b[k + 1..])
  {
    var l := a[|a| - 1];
    LastApart(a);
    assert l in multiset(b);
    k :| 0 <= k < |b| && b[k] == l;
    OneApart(b, k);
    OneLess(multiset(a), multiset(a[..|a| - 1]), l);
    OneLess(multiset(b), multiset(b[..k] + b[k + 1..]), l);
  }

  lemma LastApart<T>(a: seq<T>)
    requires a != []
    ensures a == a[..|a| - 1] + [a[|a| - 1]]
    ensures multiset(a) == multiset(a[..|a| - 1]) + multiset{a[|a| - 1]}
  {
    var front, l := a[..|a| - 1], a[|a| - 1];
    assert a == front + [l];
    assert multiset(front + [l]) == multiset(front) + multiset([l]);
  }

  lemma OneApart<T>(b: seq<T>, k: nat)
    requires k < |b|
    ensures b == b[..k] + [b[k]] + b[k + 1..]
    ensures multiset(b) == multiset(b[..k] + b[k + 1..]) + multiset{b[k]}
  {
    var x, y := b[..k], b[k + 1..];
    assert b == x + ([b[k]] + y);
    assert multiset(x + ([b[k]] + y)) == multiset(x) + multiset([b[k]] + y);
    assert multiset([b[k]] + y) == multiset{b[k]} + multiset(y);
    assert multiset(x + y) == multiset(x) + multiset(y);
  }

  lemma OneLess<T>(all: multiset<T>, rest: multiset<T>, l: T)
    requires all == rest + multiset{l}
    ensures rest == all - multiset{l}
  {
  }

  lemma Regroup<T>(a: seq<T>, b: seq<T>, c: seq<T>)
    ensures a + b + c == a + (b + c) && [] + c == c && a + [] == a
  {
  }

  lemma SameLength<T>(a: seq<T>, b: seq<T>)
    requires multiset(a) == multiset(b)
    ensures |a| == |b|
  {
    assert |multiset(a)| == |a| && |multiset(b)| == |b|;
  }
}
