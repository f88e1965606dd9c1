/** Shared vocabulary: failure-carrying results, bytes, and the byte-stream
    helpers (concatenation and total length of a sequence of chunks) that
    both download variants are specified against. */
module Common {

  /** An optional value (a missing header, a missing table, a cache miss). */
  datatype Option<+T> = None | Some(value: T)

  /** The outcome of an operation that can throw. */
  datatype Result<+T, +E> = Ok(value: T) | Err(error: E)

  /** One octet of a `Uint8Array`. */
  type byte = bv8

  function Max(a: int, b: int): int {
    if a >= b then a else b
  }

  function Min(a: int, b: int): int {
    if a <= b then a else b
  }

  /** The concatenation of the chunks in arrival order. */
  function Flatten(chunks: seq<seq<byte>>): seq<byte>
  {
    if |chunks| == 0 then [] else Flatten(chunks[..|chunks| - 1]) + chunks[|chunks| - 1]
  }

  /** The number of bytes in all chunks together. */
  function TotalLength(chunks: seq<seq<byte>>): nat
  {
    if |chunks| == 0 then 0 else TotalLength(chunks[..|chunks| - 1]) + |chunks[|chunks| - 1]|
  }

  /** A freshly allocated `Uint8Array` of length `n` holds zeros. */
  function Zeros(n: nat): (z: seq<byte>)
    ensures |z| == n
    ensures forall i :: 0 <= i < n ==> z[i] == 0
  {
    seq(n, _ => 0)
  }

  lemma {:induction false} FlattenLength(chunks: seq<seq<byte>>)
    ensures |Flatten(chunks)| == TotalLength(chunks)
  {
    if |chunks| > 0 {
      FlattenLength(chunks[..|chunks| - 1]);
    }
  }

  /** Appending one chunk extends the concatenation by exactly that chunk. */
  lemma FlattenSnoc(chunks: seq<seq<byte>>, c: seq<byte>)
    ensures Flatten(chunks + [c]) == Flatten(chunks) + c
    ensures TotalLength(chunks + [c]) == TotalLength(chunks) + |c|
  {
    assert (chunks + [c])[..|chunks|] == chunks;
  }

  /** Prefix sums of chunk lengths never decrease. */
  lemma {:induction false} TotalLengthMonotone(chunks: seq<seq<byte>>, i: nat, j: nat)
    requires i <= j <= |chunks|
    ensures TotalLength(chunks[..i]) <= TotalLength(chunks[..j])
  {
    if i < j {
      assert chunks[..j][..j - 1] == chunks[..j - 1];
      TotalLengthMonotone(chunks, i, j - 1);
    }
  }

  /** Counting the first chunk separately from the rest of a prefix. */
  lemma {:induction false} TotalLengthFront(chunks: seq<seq<byte>>, k: nat)
    requires 0 < k <= |chunks|
    ensures TotalLength(chunks[..k]) == |chunks[0]| + TotalLength(chunks[1..k])
  {
    if k > 1 {
      assert chunks[..k][..k - 1] == chunks[..k - 1];
      assert chunks[1..k][..k - 2] == chunks[1..k - 1];
      TotalLengthFront(chunks, k - 1);
    } else {
      assert chunks[..1][..0] == [];
    }
  }

  lemma TotalLengthFrontAll(chunks: seq<seq<byte>>)
    ensures forall k :: 0 < k <= |chunks| ==>
              TotalLength(chunks[..k]) == |chunks[0]| + TotalLength(chunks[1..k])
  {
    forall k | 0 < k <= |chunks|
      ensures TotalLength(chunks[..k]) == |chunks[0]| + TotalLength(chunks[1..k])
    {
      TotalLengthFront(chunks, k);
    }
  }

  /** `n` split into two halves that differ by at most one, the larger one
      second: `(n // 2, n - n // 2)`. */
  function SplitEven(n: nat): (p: (nat, nat))
    ensures p.0 + p.1 == n
    ensures p.0 <= p.1 <= p.0 + 1
  {
    (n / 2, n - n / 2)
  }

  /** The split is the only pair with those two properties. */
  lemma SplitEvenUnique(n: nat, a: nat, b: nat)
    requires a + b == n && a <= b <= a + 1
    ensures (a, b) == SplitEven(n)
  {
  }

  /** `sep.join(parts)` in Python, `parts.join(sep)` in JavaScript. */
  function Join(parts: seq<string>, sep: char): string
  {
    if |parts| == 0 then ""
    else if |parts| == 1 then parts[0]
    else parts[0] + [sep] + Join(parts[1..], sep)
  }

  /** Joining a first part onto at least one more: the part, the
      separator, then the join of the rest. */
  lemma JoinCons(a: string, rest: seq<string>, sep: char)
    requires |rest| >= 1
    ensures Join([a] + rest, sep) == a + [sep] + Join(rest, sep)
  {
    assert ([a] + rest)[1..] == rest;
  }

  /** A join is at least as long as its first part, and starts with it. */
  lemma JoinKeepsFirst(parts: seq<string>, sep: char)
    requires |parts| > 0
    ensures |Join(parts, sep)| >= |parts[0]|
    ensures Join(parts, sep)[..|parts[0]|] == parts[0]
  {
  }

  predicate StartsWith(s: string, prefix: string) {
    |prefix| <= |s| && s[..|prefix|] == prefix
  }

  predicate EndsWith(s: string, suffix: string) {
    |suffix| <= |s| && s[|s| - |suffix|..] == suffix
  }

  /** The Python exceptions the UNet code raises on bad configuration or
      mismatched shapes. */
  datatype PyError = ValueError | IndexError | AssertionError | RuntimeError

  function Pow2(d: nat): (p: nat)
    ensures p >= 1
  {
    if d == 0 then 1 else 2 * Pow2(d - 1)
  }

  /** Euclidean division is determined by quotient and remainder. */
  lemma DivMod(x: nat, t: nat, q: nat, r: nat)
    requires 0 <= r < t && x == q * t + r
    ensures x / t == q && x % t == r
  {
    var q', r' := x / t, x % t;
    assert x == q' * t + r';
    if q > q' {
      assert (q - q') * t == r' - r;
      MulAtLeast(q - q', t);
      assert false;
    } else if q < q' {
      assert (q' - q) * t == r - r';
      MulAtLeast(q' - q, t);
      assert false;
    }
  }

  /** Two different multiples of `t` are at least `t` apart. */
  lemma MultiplesGap(x1: nat, x2: nat, t: nat)
    requires t > 0 && x1 < x2 && x1 % t == 0 && x2 % t == 0
    ensures x2 - x1 >= t
  {
    var a, b := x1 / t, x2 / t;
    assert x1 == a * t && x2 == b * t;
    assert (b - a) * t == x2 - x1;
    MulPositive(b - a, t);
    MulAtLeast(b - a, t);
  }

  lemma MulAtLeast(k: int, t: nat)
    requires k >= 1
    ensures k * t >= t
  {
  }

  lemma MulMonotone(c: nat, a: nat, b: nat)
    requires a <= b
    ensures c * a <= c * b
  {
  }

  lemma MulPositive(k: int, t: nat)
    requires k * t > 0
    ensures k >= 1
  {
  }
}
