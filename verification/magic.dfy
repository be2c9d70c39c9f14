/** The arithmetic helpers of utils/magic.go. Go's `int` is 64 bits wide on the
    platforms the service runs on; the model computes on unbounded integers and
    requires that no result leaves that range, so no wrap-around is involved. */
module Magic {

  const MinInt: int := -0x8000_0000_0000_0000
  const MaxInt: int := 0x7FFF_FFFF_FFFF_FFFF

  /** `x` is a value of Go's 64-bit `int`. */
  predicate IsInt(x: int) {
    MinInt <= x <= MaxInt
  }

  function Abs(x: int): nat {
    if x < 0 then -x else x
  }

  function Max(a: int, b: int): int {
    if a < b then b else a
  }

  /** `MagicSum(a, b)` is `a + b`, the sum staying in range. */
  function MagicSum(a: int, b: int): (r: int)
    requires IsInt(a) && IsInt(b) && IsInt(a + b)
    ensures IsInt(r)
    ensures r - b == a && r - a == b
  {
    a + b
  }

  /** `MagicSub(a, b)` is Go's `a / b`, which truncates toward zero. Go panics on a
      zero divisor and wraps `MinInt / -1` back to `MinInt`; both are excluded. The
      contract is the definition of Go's quotient: `a == q * b + m` where the
      remainder `m` is smaller than `b` in magnitude and has the sign of `a`. */
  function MagicSub(a: int, b: int): (q: int)
    requires IsInt(a) && IsInt(b) && b != 0
    requires !(a == MinInt && b == -1)
    ensures IsInt(q)
    ensures Abs(a - q * b) < Abs(b)
    ensures a - q * b == 0 || (a - q * b < 0 <==> a < 0)
  {
    var n := Abs(a) / Abs(b);
    var q := if (a < 0) == (b < 0) then n else -n;
    TruncatedQuotient(a, b, q);
    q
  }

  /** The remainder left by the truncated quotient is the remainder of the
      magnitudes, carrying the sign of the dividend. */
  lemma TruncatedQuotient(a: int, b: int, q: int)
    requires b != 0
    requires q == if (a < 0) == (b < 0) then Abs(a) / Abs(b) else -(Abs(a) / Abs(b))
    ensures a - q * b == if a < 0 then -(Abs(a) % Abs(b)) else Abs(a) % Abs(b)
    ensures Abs(q) <= Abs(a)
  {
    var x: int, y: int := Abs(a), Abs(b);
    var n: int, m: int := x / y, x % y;
    QuotientBound(x, y);
    if b > 0 {
      assert q * b == q * y;
    } else {
      assert q * b == -(q * y);
    }
    if q == -n {
      assert q * y == -(n * y);
    }
  }

  lemma QuotientBound(x: int, y: int)
    requires 0 <= x && 0 < y
    ensures x == (x / y) * y + x % y
    ensures 0 <= x / y <= x
  {
    var n := x / y;
    AtLeastOnce(n, y);
  }

  lemma {:induction false} AtLeastOnce(n: nat, y: nat)
    requires y >= 1
    ensures n * y >= n
    decreases y
  {
    if y > 1 {
      AtLeastOnce(n, y - 1);
      assert n * y == n * (y - 1) + n;
    }
  }

  /** Go's `a % b`: the remainder that goes with the truncated quotient. */
  function Rem(a: int, b: int): (m: int)
    requires IsInt(a) && IsInt(b) && b != 0
    requires !(a == MinInt && b == -1)
    ensures Abs(m) < Abs(b)
  {
    a - MagicSub(a, b) * b
  }

  /** On non-negative operands Go's truncated quotient agrees with Dafny's `/`. */
  lemma MagicSubOnNaturals(a: int, b: int)
    requires IsInt(a) && IsInt(b) && 0 <= a && 0 < b
    ensures MagicSub(a, b) == a / b
  {
    var q := MagicSub(a, b);
    assert 0 <= a - q * b < b;
    assert a == q * b + (a - q * b);
  }

  /** On a negative dividend the two differ: Go gives -3 and -1 for -7 / 2 and
      -7 % 2, where Dafny's Euclidean operators give -4 and 1. */
  lemma MagicSubTruncates()
    ensures MagicSub(-7, 2) == -3 && Rem(-7, 2) == -1
    ensures -7 / 2 == -4 && -7 % 2 == 1
  {
  }

  /** `MagicPow(n)` is `n * n`: never negative, zero only for zero. */
  function MagicPow(n: int): (r: int)
    requires IsInt(n) && IsInt(n * n)
    ensures IsInt(r)
    ensures r >= 0
    ensures r == 0 <==> n == 0
  {
    n * n
  }

  /** `MagicOdd(n)` is Go's `n%2 == 0`. Despite the name it holds exactly for the EVEN
      numbers, negative ones included (there Go's remainder is -1 or 0). */
  function MagicOdd(n: int): (r: bool)
    requires IsInt(n)
    ensures r <==> n % 2 == 0
  {
    var m := Rem(n, 2);
    assert n == MagicSub(n, 2) * 2 + m;
    m == 0
  }

  /** The six grades `MagicGrade` names, by score. */
  const Grades: seq<string> := ["Zero", "Bad", "Ok", "Nice", "Awesome", "Exceptinal"]

  /** `MagicGrade(n)` is the grade of a score 0 to 5 and "Unknown" for every other `n`;
      no grade is spelt "Unknown", so that answer means exactly "out of range". */
  function MagicGrade(n: int): (r: string)
    ensures 0 <= n < |Grades| ==> r == Grades[n]
    ensures r == "Unknown" <==> !(0 <= n <= 5)
  {
    match n
    case 0 => "Zero"
    case 1 => "Bad"
    case 2 => "Ok"
    case 3 => "Nice"
    case 4 => "Awesome"
    case 5 => "Exceptinal"
    case _ => "Unknown"
  }

  /** `MagicName(n)` appends "Bayu" `n` times: `max(n, 0)` copies and nothing else.
      (For `n <= 0` Go returns a nil slice; here that is the empty sequence.) */
  method MagicName(n: int) returns (names: seq<string>)
    ensures |names| == Max(n, 0)
    ensures forall k :: 0 <= k < |names| ==> names[k] == "Bayu"
  {
    names := [];
    var i := 0;
    while i < n
      invariant 0 <= i <= Max(n, 0)
      invariant |names| == i
      invariant forall k :: 0 <= k < i ==> names[k] == "Bayu"
    {
      names := names + ["Bayu"];
      i := i + 1;
    }
  }

  /** `MagicTria(n)` sums 0, 1, ..., n - 1: the triangular number n(n - 1)/2 when n is
      positive, 0 otherwise. The requires keeps that final sum within Go's int; every
      partial sum is smaller. */
  method MagicTria(n: int) returns (x: int)
    requires IsInt(n)
    requires n <= 0 || n * (n - 1) / 2 <= MaxInt
    ensures n <= 0 ==> x == 0
    ensures n >= 0 ==> x == n * (n - 1) / 2
    ensures x >= 0
  {
    x := 0;
    var i := 0;
    while i < n
      invariant 0 <= i <= Max(n, 0)
      invariant x == i * (i - 1) / 2
    {
      assert (i + 1) * i == i * (i - 1) + 2 * i;
      x := x + i;
      i := i + 1;
    }
  }

  /** A Go `*int`: a cell holding one integer. */
  class IntRef {
    var value: int

    constructor (v: int)
      ensures value == v
    {
      value := v;
    }
  }

  /** `MagicChange(n)` doubles the integer `n` points to and writes nothing else. */
  method MagicChange(n: IntRef)
    requires IsInt(2 * n.value)
    modifies n
    ensures n.value == 2 * old(n.value)
  {
    n.value := n.value * 2;
  }
}
