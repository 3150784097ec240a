/** Unbiased selection of one character from a set (`GetRandomCharacter`):
    32-bit rejection sampling against a threshold that is a multiple of the
    set size, followed by reduction modulo the set size. The random source
    is an explicit sequence of 32-bit values. */
module RandomDraw {
  import opened Wrappers
  import opened Errors

  /** `uint.MaxValue`, the largest 32-bit unsigned value. */
  const UIntMax: int := 0xFFFF_FFFF

  /** The 2^32 values a 32-bit draw can take. */
  const UIntRange: int := 0x1_0000_0000

  type uint32 = x: int | 0 <= x <= UIntMax

  lemma {:induction false} MultiplyMonotonic(a: nat, b: nat, n: nat)
    requires a <= b
    ensures a * n <= b * n
    decreases b - a
  {
    if a < b {
      MultiplyMonotonic(a, b - 1, n);
      assert b * n == (b - 1) * n + n;
    }
  }

  /** Quotient and remainder of `m * n + k` for a remainder candidate `k < n`. */
  lemma MultipleModulo(m: nat, n: nat, k: nat)
    requires 0 <= k < n
    ensures (m * n + k) % n == k
    ensures (m * n + k) / n == m
  {
    var x := m * n + k;
    var q, r := x / n, x % n;
    assert x == q * n + r;
    if q < m {
      MultiplyMonotonic(q + 1, m, n);
    } else if q > m {
      MultiplyMonotonic(m + 1, q, n);
    }
  }

  /** `uint.MaxValue - (uint.MaxValue % n)`: values at or above it are
      redrawn. It is the largest multiple of `n` not exceeding 2^32 - 1. */
  function Threshold(n: nat): (t: nat)
    requires 0 < n <= UIntMax
    ensures 0 < t <= UIntMax
    ensures t % n == 0
    ensures UIntMax - t < n
  {
    var t := UIntMax - UIntMax % n;
    MultipleModulo(UIntMax / n, n, 0);
    assert t == (UIntMax / n) * n;
    t
  }

  /** Draw `i` is the first one below the threshold `t`. */
  predicate FirstAcceptedAt(draws: seq<uint32>, t: nat, i: nat) {
    && i < |draws|
    && draws[i] < t
    && forall j :: 0 <= j < i ==> draws[j] >= t
  }

  /** `GetRandomCharacter`: skips every draw at or above the threshold and
      picks the character at the first accepted draw modulo the set size.
      Returns the character and the draws not yet consumed. */
  function Draw(characterSet: string, draws: seq<uint32>): (r: Result<(char, seq<uint32>), Error>)
    requires |characterSet| <= UIntMax
    ensures |characterSet| == 0 ==> r == Failure(EmptyCharacterSet)
    ensures r.Failure? ==> r.error == (if |characterSet| == 0 then EmptyCharacterSet else EntropyExhausted)
    ensures r.Success? ==> r.value.0 in characterSet && |r.value.1| < |draws|
  {
    if |characterSet| == 0 then Failure(EmptyCharacterSet)
    else if |draws| == 0 then Failure(EntropyExhausted)
    else if draws[0] >= Threshold(|characterSet|) then Draw(characterSet, draws[1..])
    else Success((characterSet[draws[0] % |characterSet|], draws[1..]))
  }

  /** A draw returns the character the first accepted value selects, and
      consumes the values up to and including it. */
  lemma {:induction false} DrawTakesFirstAccepted(characterSet: string, draws: seq<uint32>, i: nat)
    requires 0 < |characterSet| <= UIntMax
    requires FirstAcceptedAt(draws, Threshold(|characterSet|), i)
    ensures Draw(characterSet, draws) == Success((characterSet[draws[i] % |characterSet|], draws[i + 1..]))
  {
    var t := Threshold(|characterSet|);
    if i > 0 {
      var rest := draws[1..];
      assert FirstAcceptedAt(rest, t, i - 1) by {
        forall j | 0 <= j < i - 1 ensures rest[j] >= t {
          assert rest[j] == draws[j + 1];
        }
      }
      DrawTakesFirstAccepted(characterSet, rest, i - 1);
      assert rest[i - 1 + 1..] == draws[i + 1..];
    }
  }

  /** A draw runs out of entropy exactly when every supplied value is rejected. */
  lemma {:induction false} DrawExhaustedIffAllRejected(characterSet: string, draws: seq<uint32>)
    requires 0 < |characterSet| <= UIntMax
    ensures Draw(characterSet, draws) == Failure(EntropyExhausted) <==>
      forall j :: 0 <= j < |draws| ==> draws[j] >= Threshold(|characterSet|)
  {
    var t := Threshold(|characterSet|);
    if |draws| > 0 && draws[0] >= t {
      var rest := draws[1..];
      DrawExhaustedIffAllRejected(characterSet, rest);
      if forall j :: 0 <= j < |rest| ==> rest[j] >= t {
        forall j | 0 <= j < |draws| ensures draws[j] >= t {
          if j > 0 { assert draws[j] == rest[j - 1]; }
        }
      } else {
        var j :| 0 <= j < |rest| && rest[j] < t;
        assert draws[j + 1] < t;
      }
    }
  }

  /** The accepted draws that map to index `k` of a set of size `n`. */
  ghost function Preimages(n: nat, k: nat, t: nat): set<nat>
    requires n > 0
  {
    set v: nat | v < t && v % n == k
  }

  /** Each block of `n` consecutive values adds exactly one preimage of `k`. */
  lemma PreimagesNextBlock(n: nat, k: nat, m: nat)
    requires k < n
    ensures Preimages(n, k, (m + 1) * n) == Preimages(n, k, m * n) + {m * n + k}
  {
    var lo, hi := Preimages(n, k, m * n), Preimages(n, k, (m + 1) * n);
    MultipleModulo(m, n, k);
    forall v: nat | v in hi && v !in lo ensures v == m * n + k {
      assert m * n <= v < (m + 1) * n;
      MultipleModulo(m, n, v - m * n);
    }
    assert (m + 1) * n == m * n + n;
  }

  lemma {:induction false} PreimagesOfMultiple(n: nat, k: nat, m: nat)
    requires k < n
    ensures |Preimages(n, k, m * n)| == m
  {
    if m == 0 {
      assert Preimages(n, k, 0) == {};
    } else {
      var p := m - 1;
      PreimagesOfMultiple(n, k, p);
      PreimagesNextBlock(n, k, p);
      var below := p * n;
      var block := Preimages(n, k, below);
      assert below + k !in block;
      assert |block + {below + k}| == |block| + 1;
    }
  }

  /** No modulo bias: below the threshold, every index of a set of size `n`
      is hit by exactly threshold / n accepted values. */
  lemma NoModuloBias(n: nat, k: nat)
    requires 0 < n <= UIntMax && k < n
    ensures |Preimages(n, k, Threshold(n))| == Threshold(n) / n
    ensures Threshold(n) / n > 0
  {
    var t := Threshold(n);
    MultipleModulo(t / n, n, 0);
    assert t == (t / n) * n;
    PreimagesOfMultiple(n, k, t / n);
  }

  /** The threshold against the largest multiple of `n` not exceeding 2^32:
      the two agree unless `n` divides 2^32 (a power of two), in which case
      the threshold rejects `n` more values than necessary. */
  lemma ThresholdAgainstFullRange(n: nat)
    requires 0 < n <= UIntMax
    ensures UIntRange % n != 0 ==> Threshold(n) == (UIntRange / n) * n
    ensures UIntRange % n == 0 ==> Threshold(n) == UIntRange - n
  {
    var q, r := UIntRange / n, UIntRange % n;
    assert UIntRange == q * n + r;
    if r != 0 {
      MultipleModulo(q, n, r - 1);
      assert UIntMax == q * n + (r - 1);
    } else {
      assert q >= 1;
      assert q * n == (q - 1) * n + n;
      MultipleModulo(q - 1, n, n - 1);
      assert UIntMax == (q - 1) * n + (n - 1);
    }
  }
}
