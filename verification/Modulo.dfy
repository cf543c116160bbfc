/** Remainders by a divisor that is not a literal. */
module Modulo {

  lemma SmallModulo(k: nat, capacity: nat)
    requires k < capacity
    ensures k % capacity == k
  {
  }

  lemma MulAtLeast(a: nat, b: nat)
    requires b >= 1
    ensures a * b >= a
  {
  }

  lemma MulNegate(a: int, b: int)
    ensures a * -b == -(a * b)
  {
  }

  lemma MulDistribute(a: int, b: int, c: int)
    ensures a * (b + c) == a * b + a * c
  {
  }

  lemma RingIndexes(k: nat, n: nat, capacity: nat)
    requires capacity > 0 && k < n < k + capacity
    ensures k % capacity != n % capacity
  {
    var q := n / capacity - k / capacity;
    assert n - k == capacity * q + (n % capacity - k % capacity);
    if q >= 1 {
      MulAtLeast(capacity, q);
    } else if q <= -1 {
      MulNegate(capacity, -q);
      MulAtLeast(capacity, -q);
    }
  }

  lemma OneRoundLater(k: nat, capacity: nat)
    requires capacity > 0
    ensures (k + capacity) % capacity == k % capacity
  {
    assert k + capacity == capacity * (k / capacity + 1) + k % capacity;
    UniqueRemainder(k + capacity, k / capacity + 1, k % capacity, capacity);
  }

  lemma UniqueRemainder(n: nat, q: nat, r: nat, d: nat)
    requires r < d && n == d * q + r
    ensures n % d == r
  {
    var q' := n / d;
    assert n == d * q' + n % d;
    assert d * (q - q') == n % d - r;
    if q > q' {
      MulAtLeast(d, q - q');
    } else if q < q' {
      MulNegate(d, q' - q);
      MulAtLeast(d, q' - q);
    }
  }

  lemma NextIndex(n: nat, capacity: nat)
    requires capacity > 0
    ensures (n % capacity + 1) % capacity == (n + 1) % capacity
  {
    var q, r := n / capacity, n % capacity;
    assert n == capacity * q + r;
    if r + 1 == capacity {
      assert n + 1 == capacity * (q + 1) + 0;
      UniqueRemainder(n + 1, q + 1, 0, capacity);
      UniqueRemainder(capacity, 1, 0, capacity);
    } else {
      UniqueRemainder(n + 1, q, r + 1, capacity);
      SmallModulo(r + 1, capacity);
    }
  }

  lemma AddModulo(a: nat, b: nat, n: nat)
    requires n > 0
    ensures (a % n + b) % n == (a + b) % n
  {
    var q, r := a / n, a % n;
    AddRounds(r + b, q, n);
    assert a == n * q + r;
  }

  lemma AddRounds(a: nat, q: nat, n: nat)
    requires n > 0
    ensures n * q + a >= 0 && (n * q + a) % n == a % n
  {
    var q', r' := a / n, a % n;
    assert a == n * q' + r';
    MulDistribute(n, q, q');
    MulAtLeast(q, n);
    UniqueRemainder(n * q + a, q + q', r', n);
  }
}
