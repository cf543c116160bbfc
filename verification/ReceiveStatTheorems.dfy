/** Fairness of the round-robin reporting, what a call reports, and what a registry knows of each SSRC. */
module ReceiveStatTheorems {
  import opened Modulo
  import opened ReceiveStat
  import S = StreamStat
  import H = StreamHistory
  import T = StreamStatTheorems

  /** A call of RtcpReportBlocks, with the statistics it finds. */
  datatype Request = Request(stats: Stats, maxBlocks: nat, now: int)

  predicate AllRegistered(ssrcs: seq<Ssrc>, calls: seq<Request>) {
    forall t :: 0 <= t < |calls| ==> Registered(calls[t].stats, ssrcs)
  }

  function VisitsOf(ssrcs: seq<Ssrc>, cursor: nat, call: Request): nat
    requires Registered(call.stats, ssrcs)
  {
    Visits(call.stats, ssrcs, cursor, call.maxBlocks, call.now)
  }

  /** The cursor after a series of calls. */
  function CursorAfter(ssrcs: seq<Ssrc>, cursor: nat, calls: seq<Request>): nat
    requires AllRegistered(ssrcs, calls)
  {
    if calls == [] then cursor
    else
      var k := |calls| - 1;
      var c := CursorAfter(ssrcs, cursor, calls[..k]);
      NextCursor(|ssrcs|, c, VisitsOf(ssrcs, c, calls[k]))
  }

  /** All visits made in a series of calls. */
  function Total(ssrcs: seq<Ssrc>, cursor: nat, calls: seq<Request>): nat
    requires AllRegistered(ssrcs, calls)
  {
    if calls == [] then 0
    else
      var k := |calls| - 1;
      Total(ssrcs, cursor, calls[..k]) + VisitsOf(ssrcs, CursorAfter(ssrcs, cursor, calls[..k]), calls[k])
  }

  lemma {:induction false} VisitsFromAtLeast(stats: Stats, ssrcs: seq<Ssrc>, cursor: nat, maxBlocks: nat, now: int, k: nat)
    requires Registered(stats, ssrcs) && k <= |ssrcs|
    ensures var v := VisitsFrom(stats, ssrcs, cursor, maxBlocks, now, k);
            v == |ssrcs| || |After(stats, ssrcs, cursor, now, v).blocks| >= maxBlocks
    decreases |ssrcs| - k
  {
    if k < |ssrcs| && |After(stats, ssrcs, cursor, now, k).blocks| < maxBlocks {
      VisitsFromAtLeast(stats, ssrcs, cursor, maxBlocks, now, k + 1);
    }
  }

  /** A call looks at as many SSRCs as it may report, or at all of them. */
  lemma VisitsAtLeast(stats: Stats, ssrcs: seq<Ssrc>, cursor: nat, maxBlocks: nat, now: int)
    requires Registered(stats, ssrcs)
    ensures var v := Visits(stats, ssrcs, cursor, maxBlocks, now);
            v <= |ssrcs| && (v >= maxBlocks || v == |ssrcs|)
  {
    VisitsFromAtLeast(stats, ssrcs, cursor, maxBlocks, now, 0);
  }

  predicate AllAsk(calls: seq<Request>, m: nat) {
    forall t :: 0 <= t < |calls| ==> calls[t].maxBlocks >= m
  }

  lemma NextCursorMoves(n: nat, cursor: nat, v: nat)
    requires n > 0 && v > 0
    ensures NextCursor(n, cursor, v) == (cursor + v) % n
  {
  }

  lemma Compose(c: nat, start: nat, v: nat, n: nat)
    requires n > 0 && c % n == start % n
    ensures (c + v) % n % n == (start + v) % n
  {
    AddModulo(c, v, n);
    AddModulo(start, v, n);
    SmallModulo((c + v) % n, n);
  }

  /** The cursor stands where the visits so far have taken it. */
  lemma {:induction false} CursorFollowsVisits(ssrcs: seq<Ssrc>, cursor: nat, calls: seq<Request>)
    requires ssrcs != [] && AllRegistered(ssrcs, calls) && AllAsk(calls, 1)
    ensures CursorAfter(ssrcs, cursor, calls) % |ssrcs| == (cursor + Total(ssrcs, cursor, calls)) % |ssrcs|
    decreases |calls|
  {
    if calls != [] {
      var k, n := |calls| - 1, |ssrcs|;
      var c := CursorAfter(ssrcs, cursor, calls[..k]);
      var v := VisitsOf(ssrcs, c, calls[k]);
      CursorFollowsVisits(ssrcs, cursor, calls[..k]);
      VisitsAtLeast(calls[k].stats, ssrcs, c, calls[k].maxBlocks, calls[k].now);
      NextCursorMoves(n, c, v);
      Compose(c, cursor + Total(ssrcs, cursor, calls[..k]), v, n);
    }
  }

  /** Visit `i` of a call continues the cycle where all earlier calls left it. */
  lemma VisitsContinue(ssrcs: seq<Ssrc>, cursor: nat, calls: seq<Request>, i: nat)
    requires ssrcs != [] && AllRegistered(ssrcs, calls) && AllAsk(calls, 1)
    ensures SlotAt(|ssrcs|, CursorAfter(ssrcs, cursor, calls), i)
            == SlotAt(|ssrcs|, cursor, Total(ssrcs, cursor, calls) + i)
  {
    CursorFollowsVisits(ssrcs, cursor, calls);
    SameSlot(|ssrcs|, CursorAfter(ssrcs, cursor, calls), cursor, Total(ssrcs, cursor, calls), i);
  }

  lemma SameSlot(n: nat, c: nat, cursor: nat, t: nat, i: nat)
    requires n > 0 && c % n == (cursor + t) % n
    ensures SlotAt(n, c, i) == SlotAt(n, cursor, t + i)
  {
    AddModulo(c, 1 + i, n);
    AddModulo(cursor + t, 1 + i, n);
    assert c + (1 + i) == c + 1 + i && cursor + t + (1 + i) == cursor + 1 + (t + i);
  }

  /** Slot `j` is visited in call `t`, as its visit number `i`. */
  predicate VisitedIn(ssrcs: seq<Ssrc>, cursor: nat, calls: seq<Request>, t: nat, i: nat, j: nat)
    requires AllRegistered(ssrcs, calls) && ssrcs != [] && t < |calls|
  {
    var c := CursorAfter(ssrcs, cursor, calls[..t]);
    i < VisitsOf(ssrcs, c, calls[t]) && SlotAt(|ssrcs|, c, i) == j
  }

  lemma {:induction false} Locate(ssrcs: seq<Ssrc>, cursor: nat, calls: seq<Request>, d: nat) returns (t: nat, i: nat)
    requires ssrcs != [] && AllRegistered(ssrcs, calls) && AllAsk(calls, 1)
    requires d < Total(ssrcs, cursor, calls)
    ensures t < |calls| && VisitedIn(ssrcs, cursor, calls, t, i, SlotAt(|ssrcs|, cursor, d))
    decreases |calls|
  {
    var k := |calls| - 1;
    var before := Total(ssrcs, cursor, calls[..k]);
    if d < before {
      t, i := Locate(ssrcs, cursor, calls[..k], d);
      assert calls[..k][..t] == calls[..t];
    } else {
      t, i := k, d - before;
      VisitsContinue(ssrcs, cursor, calls[..k], i);
    }
  }

  lemma TimesNext(k: nat, m: nat)
    ensures (k + 1) * m == k * m + m
  {
  }

  lemma {:induction false} TotalAtLeast(ssrcs: seq<Ssrc>, cursor: nat, calls: seq<Request>, m: nat)
    requires AllRegistered(ssrcs, calls) && AllAsk(calls, m)
    ensures Total(ssrcs, cursor, calls) >= |calls| * m || Total(ssrcs, cursor, calls) >= |ssrcs|
    decreases |calls|
  {
    if calls != [] {
      var k := |calls| - 1;
      var c := CursorAfter(ssrcs, cursor, calls[..k]);
      TotalAtLeast(ssrcs, cursor, calls[..k], m);
      VisitsAtLeast(calls[k].stats, ssrcs, c, calls[k].maxBlocks, calls[k].now);
      TimesNext(k, m);
    }
  }

  /** With n SSRCs and at least m >= 1 blocks a call, any ceil(n/m) calls in a row visit every SSRC,
      whatever was received in between and however many of the visits produced a block. */
  lemma EverySsrcIsVisited(ssrcs: seq<Ssrc>, cursor: nat, calls: seq<Request>, m: nat, j: nat)
    requires AllRegistered(ssrcs, calls) && m >= 1 && AllAsk(calls, m)
    requires |calls| * m >= |ssrcs| && j < |ssrcs|
    ensures exists t, i: nat :: 0 <= t < |calls| && VisitedIn(ssrcs, cursor, calls, t, i, j)
  {
    var n := |ssrcs|;
    TotalAtLeast(ssrcs, cursor, calls, m);
    var start := (cursor + 1) % n;
    var d := if j >= start then j - start else j - start + n;
    AddModulo(cursor + 1, d, n);
    if j >= start {
      SmallModulo(j, n);
    } else {
      OneRoundLater(j, n);
      SmallModulo(j, n);
    }
    assert SlotAt(n, cursor, d) == j;
    var t, i := Locate(ssrcs, cursor, calls, d);
  }

  // ----- a growing registry

  /** A call together with the registry it finds. */
  datatype Round = Round(ssrcs: seq<Ssrc>, call: Request)

  /** SSRCs are only ever appended to the registry, and it is not empty when the calls begin. */
  predicate Growing(rounds: seq<Round>) {
    && (forall t :: 0 <= t < |rounds| ==> Registered(rounds[t].call.stats, rounds[t].ssrcs) && rounds[t].ssrcs != [])
    && forall t :: 0 < t < |rounds| ==> rounds[t - 1].ssrcs <= rounds[t].ssrcs
  }

  predicate RoundsAsk(rounds: seq<Round>, m: nat) {
    forall t :: 0 <= t < |rounds| ==> rounds[t].call.maxBlocks >= m
  }

  function NextOf(cursor: nat, round: Round): nat
    requires Registered(round.call.stats, round.ssrcs)
  {
    NextCursor(|round.ssrcs|, cursor, VisitsOf(round.ssrcs, cursor, round.call))
  }

  /** Where the cursor stands when call `t` begins. */
  function CursorAt(cursor: nat, rounds: seq<Round>, t: nat): nat
    requires Growing(rounds) && t < |rounds|
    decreases t
  {
    if t == 0 then cursor
    else
      GrowingTail(rounds);
      CursorAt(NextOf(cursor, rounds[0]), rounds[1..], t - 1)
  }

  lemma GrowingTail(rounds: seq<Round>)
    requires Growing(rounds) && rounds != []
    ensures Growing(rounds[1..])
  {
    assert forall t :: 0 <= t < |rounds| - 1 ==> rounds[1..][t] == rounds[t + 1];
  }

  /** Slot `j` is visited in call `t`, as its visit number `i`. */
  predicate VisitedAt(cursor: nat, rounds: seq<Round>, t: nat, i: nat, j: nat)
    requires Growing(rounds) && t < |rounds|
  {
    var c := CursorAt(cursor, rounds, t);
    i < VisitsOf(rounds[t].ssrcs, c, rounds[t].call) && SlotAt(|rounds[t].ssrcs|, c, i) == j
  }

  /** The most visits it can take from the cursor to slot `j` in a registry that grows to `limit`. */
  function Ahead(cursor: nat, j: nat, limit: nat): int {
    if j > cursor then j - cursor else limit - cursor + j
  }

  lemma AheadIsPositive(cursor: nat, j: nat, limit: nat)
    requires cursor < limit
    ensures Ahead(cursor, j, limit) > 0
  {
  }

  /** `v` visits that pass over slot `j` bring the cursor `v` visits nearer to it. */
  lemma Nearer(n: nat, cursor: nat, v: nat, j: nat, limit: nat)
    requires cursor < n <= limit && j < n && 0 < v <= n
    requires forall i: nat :: i < v ==> SlotAt(n, cursor, i) != j
    ensures NextCursor(n, cursor, v) < n && Ahead(NextCursor(n, cursor, v), j, limit) <= Ahead(cursor, j, limit) - v
  {
    NextCursorMoves(n, cursor, v);
    var d := if j > cursor then j - cursor - 1 else n - cursor - 1 + j;
    if j > cursor {
      SmallModulo(j, n);
    } else {
      OneRoundLater(j, n);
      SmallModulo(j, n);
    }
    assert SlotAt(n, cursor, d) == j;
    if cursor + v < n {
      SmallModulo(cursor + v, n);
    } else {
      OneRoundLater(cursor + v - n, n);
      SmallModulo(cursor + v - n, n);
    }
  }

  lemma SizesGrow(rounds: seq<Round>, t: nat)
    requires Growing(rounds) && t < |rounds|
    ensures |rounds[t].ssrcs| <= |rounds[|rounds| - 1].ssrcs|
    ensures rounds[0].ssrcs <= rounds[t].ssrcs
    decreases |rounds|
  {
    if |rounds| > 1 {
      GrowingTail(rounds);
      assert rounds[0].ssrcs <= rounds[1].ssrcs;
      if t == 0 {
        SizesGrow(rounds[1..], 0);
      } else {
        SizesGrow(rounds[1..], t - 1);
      }
    }
  }

  lemma {:induction false} ReachedWhileGrowing(cursor: nat, rounds: seq<Round>, m: nat, j: nat, limit: nat)
      returns (t: nat, i: nat)
    requires Growing(rounds) && m >= 1 && RoundsAsk(rounds, m) && rounds != []
    requires cursor < |rounds[0].ssrcs| && j < |rounds[0].ssrcs| && |rounds[|rounds| - 1].ssrcs| <= limit
    requires |rounds| * m >= Ahead(cursor, j, limit)
    ensures t < |rounds| && VisitedAt(cursor, rounds, t, i, j)
    decreases |rounds|
  {
    var round := rounds[0];
    var n, v := |round.ssrcs|, VisitsOf(round.ssrcs, cursor, round.call);
    VisitsAtLeast(round.call.stats, round.ssrcs, cursor, round.call.maxBlocks, round.call.now);
    SizesGrow(rounds, 0);
    if k: nat :| k < v && SlotAt(n, cursor, k) == j {
      return 0, k;
    }
    Nearer(n, cursor, v, j, limit);
    AllVisited(n, cursor, v, j);
    TimesNext(|rounds| - 1, m);
    GrowingTail(rounds);
    var rest := rounds[1..];
    AheadIsPositive(NextOf(cursor, round), j, limit);
    assert |rest| * m > 0;
    assert rest[0] == rounds[1] && rest[|rest| - 1] == rounds[|rounds| - 1];
    t, i := ReachedWhileGrowing(NextOf(cursor, round), rest, m, j, limit);
    t := t + 1;
  }

  /** As many visits as there are slots pass over none. */
  lemma AllVisited(n: nat, cursor: nat, v: nat, j: nat)
    requires j < n && cursor < n && forall i: nat :: i < v ==> SlotAt(n, cursor, i) != j
    ensures v < n
  {
    if j > cursor {
      SmallModulo(j, n);
      assert SlotAt(n, cursor, j - cursor - 1) == j;
    } else {
      OneRoundLater(j, n);
      SmallModulo(j, n);
      assert SlotAt(n, cursor, n - cursor - 1 + j) == j;
    }
  }

  /** Fairness while SSRCs keep coming: any ceil(n/m) calls in a row, n the size the registry has grown to
      by the last of them, visit every SSRC that was registered when they began. */
  lemma {:induction false} EverySsrcIsVisitedWhileGrowing(cursor: nat, rounds: seq<Round>, m: nat, j: nat)
    requires Growing(rounds) && m >= 1 && RoundsAsk(rounds, m) && rounds != []
    requires cursor < |rounds[0].ssrcs| && j < |rounds[0].ssrcs|
    requires |rounds| * m >= |rounds[|rounds| - 1].ssrcs|
    ensures exists t, i: nat :: 0 <= t < |rounds| && VisitedAt(cursor, rounds, t, i, j) &&
                                rounds[0].ssrcs <= rounds[t].ssrcs
  {
    SizesGrow(rounds, 0);
    var t, i := ReachedWhileGrowing(cursor, rounds, m, j, |rounds[|rounds| - 1].ssrcs|);
    SizesGrow(rounds, t);
  }

  // ----- one call

  lemma DistinctMeans(s: seq<Ssrc>, i: nat, j: nat)
    requires Distinct(s) && i < j < |s|
    ensures s[i] != s[j]
  {
    if j == |s| - 1 {
      assert s[i] == s[..|s| - 1][i];
    } else {
      DistinctMeans(s[..|s| - 1], i, j);
    }
  }

  /** Block `b` comes from one of the first `k` visits. */
  ghost predicate FromVisit(ssrcs: seq<Ssrc>, cursor: nat, k: nat, b: S.Block)
    requires ssrcs != []
  {
    exists i :: 0 <= i < k && b.ssrc == ssrcs[SlotAt(|ssrcs|, cursor, i)]
  }

  /** The blocks of a call after `k` visits: all of different SSRCs, each from one of the visits. */
  ghost predicate BlocksOk(ssrcs: seq<Ssrc>, cursor: nat, k: nat, blocks: seq<S.Block>)
    requires ssrcs != []
  {
    && (forall a, b :: 0 <= a < b < |blocks| ==> blocks[a].ssrc != blocks[b].ssrc)
    && (forall a :: 0 <= a < |blocks| ==> FromVisit(ssrcs, cursor, k, blocks[a]))
  }

  lemma BlocksLater(ssrcs: seq<Ssrc>, cursor: nat, k: nat, blocks: seq<S.Block>)
    requires Distinct(ssrcs) && 0 < k <= |ssrcs| && BlocksOk(ssrcs, cursor, k - 1, blocks)
    ensures BlocksOk(ssrcs, cursor, k, blocks)
    ensures forall a :: 0 <= a < |blocks| ==> blocks[a].ssrc != ssrcs[SlotAt(|ssrcs|, cursor, k - 1)]
  {
    forall a | 0 <= a < |blocks|
      ensures blocks[a].ssrc != ssrcs[SlotAt(|ssrcs|, cursor, k - 1)] && FromVisit(ssrcs, cursor, k, blocks[a])
    {
      assert FromVisit(ssrcs, cursor, k - 1, blocks[a]);
      EarlierVisit(ssrcs, cursor, k, blocks[a]);
    }
  }

  /** No SSRC is reported twice in one call. */
  lemma {:induction false} NoSsrcTwice(stats: Stats, ssrcs: seq<Ssrc>, cursor: nat, now: int, k: nat)
    requires Registered(stats, ssrcs) && Distinct(ssrcs) && ssrcs != [] && k <= |ssrcs|
    ensures BlocksOk(ssrcs, cursor, k, After(stats, ssrcs, cursor, now, k).blocks)
  {
    if k > 0 {
      NoSsrcTwice(stats, ssrcs, cursor, now, k - 1);
      var before := After(stats, ssrcs, cursor, now, k - 1);
      BlocksLater(ssrcs, cursor, k, before.blocks);
      VisitAppends(before, ssrcs[SlotAt(|ssrcs|, cursor, k - 1)], now);
    }
  }

  lemma VisitAppends(sweep: Sweep, ssrc: Ssrc, now: int)
    requires ssrc in sweep.stats
    ensures var after := Visit(sweep, ssrc, now).blocks;
            after == sweep.blocks ||
            (|after| == |sweep.blocks| + 1 && after[..|sweep.blocks|] == sweep.blocks &&
             after[|sweep.blocks|].ssrc == ssrc)
  {
  }

  lemma EarlierVisit(ssrcs: seq<Ssrc>, cursor: nat, k: nat, b: S.Block)
    requires Distinct(ssrcs) && 0 < k <= |ssrcs| && FromVisit(ssrcs, cursor, k - 1, b)
    ensures b.ssrc != ssrcs[SlotAt(|ssrcs|, cursor, k - 1)] && FromVisit(ssrcs, cursor, k, b)
  {
    var i :| 0 <= i < k - 1 && b.ssrc == ssrcs[SlotAt(|ssrcs|, cursor, i)];
    DifferentSlots(ssrcs, cursor, i, k - 1);
  }

  lemma DifferentSlots(ssrcs: seq<Ssrc>, cursor: nat, i: nat, j: nat)
    requires Distinct(ssrcs) && i < j < |ssrcs|
    ensures ssrcs[SlotAt(|ssrcs|, cursor, i)] != ssrcs[SlotAt(|ssrcs|, cursor, j)]
  {
    var a, b := SlotAt(|ssrcs|, cursor, i), SlotAt(|ssrcs|, cursor, j);
    RingIndexes(cursor + 1 + i, cursor + 1 + j, |ssrcs|);
    if a < b {
      DistinctMeans(ssrcs, a, b);
    } else {
      DistinctMeans(ssrcs, b, a);
    }
  }

  // ----- what a call reports

  /** `x` is the SSRC of one of the first `k` visits. */
  ghost predicate VisitedBefore(ssrcs: seq<Ssrc>, cursor: nat, k: nat, x: Ssrc)
    requires ssrcs != []
  {
    exists i :: 0 <= i < k && x == ssrcs[SlotAt(|ssrcs|, cursor, i)]
  }

  /** The block `x` is owed, given the statistics of all. */
  function Owed(stats: Stats, x: Ssrc, now: int): seq<S.Block>
    requires x in stats
  {
    if S.Reports(stats[x], now) then [S.BlockOf(x, stats[x])] else []
  }

  /** The blocks owed to the SSRCs of the first `k` visits, in their order, given the statistics a call
      finds when it begins. */
  function Due(stats: Stats, ssrcs: seq<Ssrc>, cursor: nat, now: int, k: nat): seq<S.Block>
    requires Registered(stats, ssrcs) && (k > 0 ==> ssrcs != [])
  {
    if k == 0 then []
    else Due(stats, ssrcs, cursor, now, k - 1) + Owed(stats, ssrcs[SlotAt(|ssrcs|, cursor, k - 1)], now)
  }

  /** What a call leaves of the statistics `st` of an SSRC. */
  function Left(st: S.Stat, visited: bool, now: int): S.Stat {
    if visited && S.Reports(st, now) then S.AfterReport(st) else st
  }

  lemma VisitedNext(ssrcs: seq<Ssrc>, cursor: nat, k: nat)
    requires Distinct(ssrcs) && 0 < k <= |ssrcs|
    ensures var x := ssrcs[SlotAt(|ssrcs|, cursor, k - 1)];
            !VisitedBefore(ssrcs, cursor, k - 1, x) &&
            forall y :: VisitedBefore(ssrcs, cursor, k, y) <==> VisitedBefore(ssrcs, cursor, k - 1, y) || y == x
  {
    forall i | 0 <= i < k - 1 ensures ssrcs[SlotAt(|ssrcs|, cursor, i)] != ssrcs[SlotAt(|ssrcs|, cursor, k - 1)] {
      DifferentSlots(ssrcs, cursor, i, k - 1);
    }
  }

  lemma VisitIs(sweep: Sweep, x: Ssrc, now: int)
    requires x in sweep.stats
    ensures Visit(sweep, x, now).blocks == sweep.blocks + Owed(sweep.stats, x, now)
    ensures Visit(sweep, x, now).stats.Keys == sweep.stats.Keys
    ensures forall y :: y in sweep.stats ==> Visit(sweep, x, now).stats[y] == Left(sweep.stats[y], y == x, now)
  {
  }

  /** The first `k` visits of a call report every SSRC they come to that has something to report, in order
      and from the statistics the call found, and reset those; all others stay as they are. */
  lemma {:induction false} VisitsReport(stats: Stats, ssrcs: seq<Ssrc>, cursor: nat, now: int, k: nat)
    requires Registered(stats, ssrcs) && Distinct(ssrcs) && ssrcs != [] && k <= |ssrcs|
    ensures After(stats, ssrcs, cursor, now, k).blocks == Due(stats, ssrcs, cursor, now, k)
    ensures forall y :: y in stats ==>
              After(stats, ssrcs, cursor, now, k).stats[y] == Left(stats[y], VisitedBefore(ssrcs, cursor, k, y), now)
  {
    if k > 0 {
      VisitsReport(stats, ssrcs, cursor, now, k - 1);
      VisitsReportNext(stats, ssrcs, cursor, now, k, After(stats, ssrcs, cursor, now, k - 1));
      VisitIs(After(stats, ssrcs, cursor, now, k - 1), ssrcs[SlotAt(|ssrcs|, cursor, k - 1)], now);
    }
  }

  lemma VisitsReportNext(stats: Stats, ssrcs: seq<Ssrc>, cursor: nat, now: int, k: nat, sweep: Sweep)
    requires Registered(stats, ssrcs) && Distinct(ssrcs) && 0 < k <= |ssrcs| && sweep.stats.Keys == stats.Keys
    requires forall y :: y in stats ==> sweep.stats[y] == Left(stats[y], VisitedBefore(ssrcs, cursor, k - 1, y), now)
    ensures var x := ssrcs[SlotAt(|ssrcs|, cursor, k - 1)];
            x in stats && sweep.stats[x] == stats[x] &&
            forall y :: y in stats ==>
              Visit(sweep, x, now).stats[y] == Left(stats[y], VisitedBefore(ssrcs, cursor, k, y), now)
  {
    VisitedNext(ssrcs, cursor, k);
    VisitIs(sweep, ssrcs[SlotAt(|ssrcs|, cursor, k - 1)], now);
  }

  lemma {:induction false} DueContains(stats: Stats, ssrcs: seq<Ssrc>, cursor: nat, now: int, k: nat, i: nat)
    requires Registered(stats, ssrcs) && i < k && ssrcs != []
    ensures var x := ssrcs[SlotAt(|ssrcs|, cursor, i)];
            S.Reports(stats[x], now) ==> S.BlockOf(x, stats[x]) in Due(stats, ssrcs, cursor, now, k)
  {
    if i < k - 1 {
      DueContains(stats, ssrcs, cursor, now, k - 1, i);
    }
  }

  lemma OneBlockMore(stats: Stats, ssrcs: seq<Ssrc>, cursor: nat, now: int, k: nat)
    requires Registered(stats, ssrcs) && k < |ssrcs|
    ensures |After(stats, ssrcs, cursor, now, k + 1).blocks| <= |After(stats, ssrcs, cursor, now, k).blocks| + 1
  {
    VisitAppends(After(stats, ssrcs, cursor, now, k), ssrcs[SlotAt(|ssrcs|, cursor, k)], now);
  }

  lemma {:induction false} VisitsFromFit(stats: Stats, ssrcs: seq<Ssrc>, cursor: nat, maxBlocks: nat, now: int, k: nat)
    requires Registered(stats, ssrcs) && k <= |ssrcs| && |After(stats, ssrcs, cursor, now, k).blocks| <= maxBlocks
    ensures var v := VisitsFrom(stats, ssrcs, cursor, maxBlocks, now, k);
            |After(stats, ssrcs, cursor, now, v).blocks| <= maxBlocks &&
            forall i :: k <= i < v ==> |After(stats, ssrcs, cursor, now, i).blocks| < maxBlocks
    decreases |ssrcs| - k
  {
    if k < |ssrcs| && |After(stats, ssrcs, cursor, now, k).blocks| < maxBlocks {
      OneBlockMore(stats, ssrcs, cursor, now, k);
      SweepStep(stats, ssrcs, cursor, maxBlocks, now, k);
      VisitsFromFit(stats, ssrcs, cursor, maxBlocks, now, k + 1);
    } else {
      SweepEnds(stats, ssrcs, cursor, maxBlocks, now, k);
    }
  }

  /** A whole call: the blocks owed to the SSRCs visited and no others, at most as many as allowed; fewer
      only if all were visited, and it stops as soon as it may report no more. */
  lemma CallReports(stats: Stats, ssrcs: seq<Ssrc>, cursor: nat, maxBlocks: nat, now: int)
    requires Registered(stats, ssrcs) && Distinct(ssrcs) && ssrcs != []
    ensures var sweep, v := Call(stats, ssrcs, cursor, maxBlocks, now).0, Visits(stats, ssrcs, cursor, maxBlocks, now);
            sweep.blocks == Due(stats, ssrcs, cursor, now, v) && |sweep.blocks| <= maxBlocks &&
            (v == |ssrcs| || |sweep.blocks| == maxBlocks)
    ensures var v := Visits(stats, ssrcs, cursor, maxBlocks, now);
            forall i :: 0 <= i < v ==> |Due(stats, ssrcs, cursor, now, i)| < maxBlocks
    ensures var sweep, v := Call(stats, ssrcs, cursor, maxBlocks, now).0, Visits(stats, ssrcs, cursor, maxBlocks, now);
            sweep.stats.Keys == stats.Keys &&
            forall y :: y in stats ==> sweep.stats[y] == Left(stats[y], VisitedBefore(ssrcs, cursor, v, y), now)
  {
    var v := Visits(stats, ssrcs, cursor, maxBlocks, now);
    VisitsReport(stats, ssrcs, cursor, now, v);
    VisitsFromAtLeast(stats, ssrcs, cursor, maxBlocks, now, 0);
    VisitsFromFit(stats, ssrcs, cursor, maxBlocks, now, 0);
    forall i | 0 <= i < v ensures |Due(stats, ssrcs, cursor, now, i)| < maxBlocks {
      VisitsReport(stats, ssrcs, cursor, now, i);
    }
  }

  /** Call `t` reports the SSRC of slot `j`, unless that has nothing to report then. */
  ghost predicate ReportedIn(ssrcs: seq<Ssrc>, cursor: nat, calls: seq<Request>, t: nat, j: nat)
    requires AllRegistered(ssrcs, calls) && t < |calls| && j < |ssrcs|
  {
    var call, x := calls[t], ssrcs[j];
    S.Reports(call.stats[x], call.now) ==>
      S.BlockOf(x, call.stats[x])
      in Call(call.stats, ssrcs, CursorAfter(ssrcs, cursor, calls[..t]), call.maxBlocks, call.now).0.blocks
  }

  /** Fairness in blocks: of any ceil(n/m) calls in a row one reports the SSRC, if it has something to
      report when its turn comes. */
  lemma EverySsrcIsReported(ssrcs: seq<Ssrc>, cursor: nat, calls: seq<Request>, m: nat, j: nat)
    requires AllRegistered(ssrcs, calls) && Distinct(ssrcs) && m >= 1 && AllAsk(calls, m)
    requires |calls| * m >= |ssrcs| && j < |ssrcs|
    ensures exists t, i: nat :: 0 <= t < |calls| && VisitedIn(ssrcs, cursor, calls, t, i, j) &&
                                ReportedIn(ssrcs, cursor, calls, t, j)
  {
    EverySsrcIsVisited(ssrcs, cursor, calls, m, j);
    var t, i: nat :| 0 <= t < |calls| && VisitedIn(ssrcs, cursor, calls, t, i, j);
    var call, c := calls[t], CursorAfter(ssrcs, cursor, calls[..t]);
    CallReports(call.stats, ssrcs, c, call.maxBlocks, call.now);
    DueContains(call.stats, ssrcs, c, call.now, VisitsOf(ssrcs, c, call), i);
  }

  // ----- what the registry knows of an SSRC

  /** A packet of some SSRC comes, or a report is asked for. */
  datatype Event = PacketOf(ssrc: Ssrc, p: S.Packet, now: int) | Ask(maxBlocks: nat, now: int)

  datatype Registry = Registry(stats: Stats, ssrcs: seq<Ssrc>, cursor: nat, sent: seq<S.Block>)

  predicate RegistryOk(r: Registry) {
    Registered(r.stats, r.ssrcs) && Distinct(r.ssrcs) && Elements(r.ssrcs) == r.stats.Keys
  }

  function Next(r: Registry, e: Event): Registry
    requires RegistryOk(r)
  {
    match e
    case PacketOf(ssrc, p, now) =>
      r.(stats := Counted(r.stats, ssrc, p, now), ssrcs := if ssrc in r.stats then r.ssrcs else r.ssrcs + [ssrc])
    case Ask(maxBlocks, now) =>
      var (sweep, cursor) := Call(r.stats, r.ssrcs, r.cursor, maxBlocks, now);
      Registry(sweep.stats, r.ssrcs, cursor, r.sent + sweep.blocks)
  }

  lemma PacketOk(r: Registry, ssrc: Ssrc, p: S.Packet, now: int)
    requires RegistryOk(r)
    ensures RegistryOk(Next(r, PacketOf(ssrc, p, now)))
  {
    DistinctAppend(r.ssrcs, ssrc);
  }

  lemma NextOk(r: Registry, e: Event)
    requires RegistryOk(r)
    ensures RegistryOk(Next(r, e))
  {
    match e
    case PacketOf(ssrc, p, now) => PacketOk(r, ssrc, p, now);
    case Ask(maxBlocks, now) => assert Next(r, e).stats.Keys == r.stats.Keys;
  }

  function Run(es: seq<Event>): (r: Registry)
    ensures RegistryOk(r)
  {
    if es == [] then Registry(map[], [], 0, [])
    else
      NextOk(Run(es[..|es| - 1]), es[|es| - 1]);
      Next(Run(es[..|es| - 1]), es[|es| - 1])
  }

  /** Whether a report asked for comes to `x`. */
  ghost predicate ComesTo(r: Registry, maxBlocks: nat, now: int, x: Ssrc)
    requires RegistryOk(r)
  {
    r.ssrcs != [] && VisitedBefore(r.ssrcs, r.cursor, Visits(r.stats, r.ssrcs, r.cursor, maxBlocks, now), x)
  }

  /** What an event means for `x`: one of its packets, one of its reports, or nothing. */
  ghost function OwnPart(r: Registry, e: Event, x: Ssrc): seq<H.Event>
    requires RegistryOk(r)
  {
    match e
    case PacketOf(ssrc, p, now) => if ssrc == x then [H.Arrival(p, now)] else []
    case Ask(maxBlocks, now) => if ComesTo(r, maxBlocks, now, x) then [H.Report(now)] else []
  }

  ghost function Own(es: seq<Event>, x: Ssrc): seq<H.Event> {
    if es == [] then [] else Own(es[..|es| - 1], x) + OwnPart(Run(es[..|es| - 1]), es[|es| - 1], x)
  }

  predicate HadPacket(es: seq<Event>, x: Ssrc) {
    exists i :: 0 <= i < |es| && es[i].PacketOf? && es[i].ssrc == x
  }

  /** The blocks of `x` among others. */
  function Of(blocks: seq<S.Block>, x: Ssrc): seq<S.Block> {
    if blocks == [] then []
    else Of(blocks[..|blocks| - 1], x) + if blocks[|blocks| - 1].ssrc == x then [blocks[|blocks| - 1]] else []
  }

  lemma {:induction false} OfAppend(a: seq<S.Block>, b: seq<S.Block>, x: Ssrc)
    ensures Of(a + b, x) == Of(a, x) + Of(b, x)
  {
    if b == [] {
      assert a + b == a;
    } else {
      OfAppend(a, b[..|b| - 1], x);
      assert (a + b)[..|a + b| - 1] == a + b[..|b| - 1];
    }
  }

  lemma OfOwed(stats: Stats, y: Ssrc, now: int, x: Ssrc)
    requires y in stats
    ensures Of(Owed(stats, y, now), x) == if y == x then Owed(stats, x, now) else []
  {
  }

  lemma IsVisitedNext(ssrcs: seq<Ssrc>, cursor: nat, k: nat, x: Ssrc)
    requires Distinct(ssrcs) && 0 < k <= |ssrcs|
    ensures var y := ssrcs[SlotAt(|ssrcs|, cursor, k - 1)];
            (VisitedBefore(ssrcs, cursor, k, x) <==> VisitedBefore(ssrcs, cursor, k - 1, x) || x == y) &&
            !(VisitedBefore(ssrcs, cursor, k - 1, x) && x == y)
  {
    VisitedNext(ssrcs, cursor, k);
  }

  lemma OfDueNext(stats: Stats, due: seq<S.Block>, visited: bool, y: Ssrc, now: int, x: Ssrc)
    requires y in stats && (visited ==> x in stats && x != y)
    requires Of(due, x) == if visited then Owed(stats, x, now) else []
    ensures Of(due + Owed(stats, y, now), x) == if visited || x == y then Owed(stats, x, now) else []
  {
    var owed := Owed(stats, y, now);
    OfAppend(due, owed, x);
    OfOwed(stats, y, now, x);
    assert Of(due, x) + [] == Of(due, x) && [] + Of(owed, x) == Of(owed, x);
  }

  lemma {:induction false} OfDue(stats: Stats, ssrcs: seq<Ssrc>, cursor: nat, now: int, k: nat, x: Ssrc)
    requires Registered(stats, ssrcs) && Distinct(ssrcs) && ssrcs != [] && k <= |ssrcs|
    ensures VisitedBefore(ssrcs, cursor, k, x) ==> x in stats
    ensures Of(Due(stats, ssrcs, cursor, now, k), x)
            == if VisitedBefore(ssrcs, cursor, k, x) then Owed(stats, x, now) else []
  {
    if k > 0 {
      var y := ssrcs[SlotAt(|ssrcs|, cursor, k - 1)];
      OfDue(stats, ssrcs, cursor, now, k - 1, x);
      IsVisitedNext(ssrcs, cursor, k, x);
      OfDueNext(stats, Due(stats, ssrcs, cursor, now, k - 1), VisitedBefore(ssrcs, cursor, k - 1, x), y, now, x);
      assert Due(stats, ssrcs, cursor, now, k) == Due(stats, ssrcs, cursor, now, k - 1) + Owed(stats, y, now);
    }
  }

  /** `st` and `sent` are what `x` would have if there were no other SSRC. */
  ghost predicate Alone(es: seq<H.Event>, x: Ssrc, r: Registry) {
    && (if x in r.stats then r.stats[x] == T.Run(es) else es == [])
    && Of(r.sent, x) == T.Blocks(x, es)
  }

  lemma AloneAfterPacket(own: seq<H.Event>, x: Ssrc, r: Registry, ssrc: Ssrc, p: S.Packet, now: int)
    requires RegistryOk(r) && Alone(own, x, r)
    ensures Alone(own + OwnPart(r, PacketOf(ssrc, p, now), x), x, Next(r, PacketOf(ssrc, p, now)))
  {
    var part := OwnPart(r, PacketOf(ssrc, p, now), x);
    if ssrc == x {
      assert (own + part)[..|own|] == own;
    } else {
      assert own + part == own;
    }
  }

  /** A report asked for, in the history of `x` alone. */
  lemma OwnReport(own: seq<H.Event>, x: Ssrc, now: int)
    ensures var more := own + [H.Report(now)];
            T.Run(more) == Left(T.Run(own), true, now) &&
            T.Blocks(x, more) == T.Blocks(x, own) +
              if S.Reports(T.Run(own), now) then [S.BlockOf(x, T.Run(own))] else []
  {
    assert (own + [H.Report(now)])[..|own|] == own;
  }

  /** The statistics and blocks of `x` after a call. */
  lemma AfterCall(r: Registry, maxBlocks: nat, now: int, x: Ssrc)
    requires RegistryOk(r) && r.ssrcs != []
    ensures var r', visited := Next(r, Ask(maxBlocks, now)), ComesTo(r, maxBlocks, now, x);
            r'.stats.Keys == r.stats.Keys && (visited ==> x in r.stats) &&
            (x in r.stats ==> r'.stats[x] == Left(r.stats[x], visited, now)) &&
            Of(r'.sent, x) == Of(r.sent, x) + if visited then Owed(r.stats, x, now) else []
  {
    var v := Visits(r.stats, r.ssrcs, r.cursor, maxBlocks, now);
    CallReports(r.stats, r.ssrcs, r.cursor, maxBlocks, now);
    OfDue(r.stats, r.ssrcs, r.cursor, now, v, x);
    OfAppend(r.sent, Due(r.stats, r.ssrcs, r.cursor, now, v), x);
  }

  lemma AloneAfterCall(own: seq<H.Event>, x: Ssrc, r: Registry, maxBlocks: nat, now: int)
    requires RegistryOk(r) && Alone(own, x, r) && r.ssrcs != []
    ensures Alone(own + OwnPart(r, Ask(maxBlocks, now), x), x, Next(r, Ask(maxBlocks, now)))
  {
    AfterCall(r, maxBlocks, now, x);
    if ComesTo(r, maxBlocks, now, x) {
      OwnReport(own, x, now);
    } else {
      assert own + [] == own;
    }
  }

  /** A call that may report nothing, or knows nobody, only sends the cursor back to the first slot. */
  lemma IdleCall(r: Registry, maxBlocks: nat, now: int)
    requires RegistryOk(r) && (r.ssrcs == [] || maxBlocks == 0)
    ensures Next(r, Ask(maxBlocks, now)) == r.(cursor := 0)
  {
    assert r.sent + [] == r.sent;
  }

  lemma AloneStep(own: seq<H.Event>, x: Ssrc, r: Registry, e: Event)
    requires RegistryOk(r) && Alone(own, x, r)
    ensures Alone(own + OwnPart(r, e, x), x, Next(r, e))
  {
    match e
    case PacketOf(ssrc, p, now) => AloneAfterPacket(own, x, r, ssrc, p, now);
    case Ask(maxBlocks, now) =>
      if r.ssrcs == [] {
        IdleCall(r, maxBlocks, now);
        assert own + OwnPart(r, e, x) == own;
      } else {
        AloneAfterCall(own, x, r, maxBlocks, now);
      }
  }

  lemma HadPacketNext(es: seq<Event>, e: Event, x: Ssrc)
    ensures HadPacket(es + [e], x) <==> HadPacket(es, x) || (e.PacketOf? && e.ssrc == x)
  {
    var all := es + [e];
    assert all[|es|] == e && forall i :: 0 <= i < |es| ==> all[i] == es[i];
  }

  lemma KeysNext(r: Registry, e: Event, x: Ssrc)
    requires RegistryOk(r)
    ensures x in Next(r, e).stats <==> x in r.stats || (e.PacketOf? && e.ssrc == x)
  {
  }

  /** An SSRC is known exactly if it had a packet. */
  lemma {:induction false} KnownIfHeard(es: seq<Event>, x: Ssrc)
    ensures x in Run(es).stats <==> HadPacket(es, x)
  {
    if es != [] {
      var before, e := es[..|es| - 1], es[|es| - 1];
      KnownIfHeard(before, x);
      assert es == before + [e];
      HadPacketNext(before, e, x);
      KeysNext(Run(before), e, x);
    }
  }

  lemma {:induction false} AloneAlways(es: seq<Event>, x: Ssrc)
    ensures Alone(Own(es, x), x, Run(es))
  {
    if es != [] {
      var before := es[..|es| - 1];
      AloneAlways(before, x);
      AloneStep(Own(before, x), x, Run(before), es[|es| - 1]);
    }
  }

  /** After any history of packets and calls the statistics of an SSRC that had a packet, and all blocks
      ever sent of it, are those of its own packets and reports alone; and they say what
      `StreamHistory` tells of these. */
  lemma {:induction false} OwnHistory(es: seq<Event>, x: Ssrc)
    ensures x in Run(es).stats <==> HadPacket(es, x)
    ensures x in Run(es).stats ==> Run(es).stats[x] == T.Run(Own(es, x))
    ensures Of(Run(es).sent, x) == T.Blocks(x, Own(es, x))
    ensures T.AllSay(Of(Run(es).sent, x), x, H.Tallied(Own(es, x)).reports)
  {
    KnownIfHeard(es, x);
    AloneAlways(es, x);
    T.ReportedBlocks(x, Own(es, x));
  }
}
