/**
 Small notions shared by the other modules.
 */
module Common {
  datatype Option<T> = None | Some(value: T)

  ghost predicate Distinct<T>(s: seq<T>) {
    forall i, j :: 0 <= i < j < |s| ==> s[i] != s[j]
  }

  function Min(a: int, b: int): int {
    if b < a then b else a
  }

  function Max(a: int, b: int): int {
    if a < b then b else a
  }

  /** `n` rounded up to a multiple of `m`. */
  function RoundUp(n: int, m: int): int
    requires m > 0
  {
    (n + (m - 1)) / m * m
  }

  /** `r` is the least multiple of `m` that is at least `n`. */
  predicate LeastMultiple(r: int, n: int, m: int) {
    m > 0 && r % m == 0 && n <= r < n + m
  }

  lemma LeastMultipleUnique(a: int, b: int, n: int, m: int)
    requires LeastMultiple(a, n, m) && LeastMultiple(b, n, m)
    ensures a == b
  {
    var p, q := a / m, b / m;
    assert a == p * m && b == q * m;
    if p < q {
      MulMono(p + 1, q, m);
      MulSum(p, 1, m);
    } else if q < p {
      MulMono(q + 1, p, m);
      MulSum(q, 1, m);
    }
  }

  /** Difference or zero. */
  function Doz(a: int, b: int): int {
    if b < a then a - b else 0
  }

  lemma MulMono(a: int, b: int, s: int)
    requires a <= b && 0 <= s
    ensures a * s <= b * s
  {
  }

  lemma MulSum(a: int, b: int, s: int)
    ensures (a + b) * s == a * s + b * s
  {
  }

  /** Every number is a multiple of `m` and a rest. */
  lemma MultipleMod(q: int, m: int)
    requires m > 0
    ensures (q * m) % m == 0
  {
    var d, r := (q * m) / m, (q * m) % m;
    assert q * m == d * m + r;
    assert (q - d) * m == r;
    if q - d >= 1 {
      MulMono(1, q - d, m);
    } else if q - d <= -1 {
      MulMono(q - d, -1, m);
    }
  }
}
