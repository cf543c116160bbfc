/** 16-bit RTP sequence numbers: the wrap-aware comparisons used by the forwarder, the NACK
    bookkeeping and the receiver statistics, and how they relate to extended (unwrapped) numbers. */
module SeqNum {

  type Seq16 = x: int | 0 <= x < 0x1_0000

  /** The 16-bit number that goes on the wire for extended number `n`. */
  function Low(n: int): Seq16 {
    n % 0x1_0000
  }

  /** How far one has to walk forward from `a` to reach `b`. */
  function ForwardDiff(a: Seq16, b: Seq16): Seq16 {
    (b - a) % 0x1_0000
  }

  /** How far one has to walk backward from `a` to reach `b`. */
  function ReverseDiff(a: Seq16, b: Seq16): Seq16 {
    (a - b) % 0x1_0000
  }

  /** `a` is `b` or newer; at the exact half-way distance the numerically larger number is newer. */
  predicate AheadOrAt(a: Seq16, b: Seq16) {
    var d := ForwardDiff(b, a);
    if d == 0x8000 then b < a else d < 0x8000
  }

  predicate AheadOf(a: Seq16, b: Seq16) {
    a != b && AheadOrAt(a, b)
  }

  /** The extended number meant by wire number `s` for a receiver whose frontier is `frontier`:
      ahead of it exactly when the code's comparison says so. */
  function Nearest(frontier: int, s: Seq16): (n: int)
    ensures Low(n) == s
    ensures frontier - 0x8000 <= n <= frontier + 0x8000
    ensures n > frontier <==> AheadOf(s, Low(frontier))
    ensures n == frontier <==> s == Low(frontier)
  {
    if AheadOf(s, Low(frontier)) then frontier + ForwardDiff(Low(frontier), s)
    else frontier - ReverseDiff(Low(frontier), s)
  }

  /** Within less than half the circle the wire comparison is the order of extended numbers. */
  lemma AheadIsOrder(m: int, n: int)
    requires -0x8000 < m - n < 0x8000
    ensures AheadOf(Low(m), Low(n)) <==> m > n
    ensures AheadOrAt(Low(m), Low(n)) <==> m >= n
  {
    LowOfSum(n, m - n);
  }

  /** Of two different wire numbers exactly one is ahead, at every distance. */
  lemma AheadIsTotal(a: Seq16, b: Seq16)
    requires a != b
    ensures AheadOf(a, b) <==> !AheadOf(b, a)
  {
  }

  /** Exactly half a circle apart the numerically larger number is ahead. */
  lemma TieGoesToLarger(a: Seq16, b: Seq16)
    requires a - b == 0x8000 || b - a == 0x8000
    ensures AheadOf(a, b) <==> a > b
  {
  }

  lemma LowOfSum(n: int, d: int)
    ensures Low(n + d) == Low(Low(n) + d)
    ensures ForwardDiff(Low(n), Low(n + d)) == Low(d)
    ensures ReverseDiff(Low(n + d), Low(n)) == Low(d)
  {
  }

  lemma DistanceBehind(m: int, n: int)
    requires 0 <= m - n < 0x1_0000
    ensures ReverseDiff(Low(m), Low(n)) == m - n
  {
  }

  lemma LowOfForward(a: Seq16, b: Seq16, j: int)
    ensures Low(a + ForwardDiff(a, b) + j) == Low(b + j)
  {
  }

  /** The wrap comparison forgets nothing nearby: numbers less than a full circle apart that look
      alike on the wire are equal. */
  lemma LowInjective(m: int, n: int)
    requires -0x1_0000 < m - n < 0x1_0000
    requires Low(m) == Low(n)
    ensures m == n
  {
  }

  /** Unwrapping against any frontier within half a circle recovers the extended number. */
  lemma NearestRecovers(frontier: int, n: int)
    requires -0x8000 < n - frontier < 0x8000
    ensures Nearest(frontier, Low(n)) == n
  {
    AheadIsOrder(n, frontier);
    LowInjective(n, Nearest(frontier, Low(n)));
  }
}
