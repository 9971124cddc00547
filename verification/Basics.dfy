/** Types and facts that every part of the model shares. */
module Basics {
  type byte = x: int | 0 <= x < 256

  datatype Option<+T> = None | Some(value: T)

  /** 0, 1, ..., n - 1. */
  function UpTo(n: nat): seq<nat> {
    seq(n, i requires 0 <= i => i)
  }

  lemma UpToNext(n: nat)
    ensures UpTo(n) + [n] == UpTo(n + 1)
  {
  }

  lemma ConcatAssoc<T>(a: seq<T>, b: seq<T>, c: seq<T>)
    ensures (a + b) + c == a + (b + c)
  {
  }

  predicate PowerOfTwo(n: nat) {
    n == 1 || (n > 1 && n % 2 == 0 && PowerOfTwo(n / 2))
  }

  /** Bitwise and. */
  function And(x: nat, y: nat): nat {
    if x == 0 || y == 0 then 0 else x % 2 * (y % 2) + 2 * And(x / 2, y / 2)
  }

  /** Masking with n - 1 takes the remainder, for a power of two. */
  lemma {:induction false} MaskIsRemainder(x: nat, n: nat)
    requires PowerOfTwo(n)
    ensures And(x, n - 1) == x % n
    decreases n
  {
    if n > 1 {
      var h := n / 2;
      assert n == 2 * h && (n - 1) / 2 == h - 1 && (n - 1) % 2 == 1;
      MaskIsRemainder(x / 2, h);
      HalfRemainder(x, h);
    }
  }

  lemma HalfRemainder(x: nat, h: nat)
    requires 0 < h
    ensures x % (2 * h) == x % 2 + 2 * (x / 2 % h)
  {
    var q, r := x / 2 / h, x / 2 % h;
    assert x / 2 == h * q + r;
    var low := x % 2 + 2 * r;
    assert x == (2 * h) * q + low && 0 <= low < 2 * h;
    RemainderIs(x, 2 * h, q, low);
  }

  lemma RemainderIs(x: nat, n: nat, q: nat, r: nat)
    requires 0 < n && x == n * q + r && r < n
    ensures x % n == r
  {
    var d := x / n - q;
    assert d > 0 ==> n * d >= n;
    assert d < 0 ==> n * d <= 0 - n;
    assert x == n * (x / n) + x % n;
    assert n * d == r - x % n;
  }
}
