/** The registry of per-SSRC statistics and its round-robin reporting. */
module ReceiveStat {
  import Bytes
  import S = StreamStat

  type Ssrc = Bytes.Uint32
  type Stats = map<Ssrc, S.Stat>

  /** State of a reporting sweep: the statistics and the blocks produced so far. */
  datatype Sweep = Sweep(stats: Stats, blocks: seq<S.Block>)

  function Visit(sweep: Sweep, ssrc: Ssrc, now: int): Sweep
    requires ssrc in sweep.stats
  {
    var st := sweep.stats[ssrc];
    if S.Reports(st, now)
    then Sweep(sweep.stats[ssrc := S.AfterReport(st)], sweep.blocks + [S.BlockOf(ssrc, st)])
    else sweep
  }

  /** The registry slot of the `i`-th visit of a call. */
  function SlotAt(n: nat, cursor: nat, i: nat): (slot: nat)
    requires n > 0
    ensures slot < n
  {
    (cursor + 1 + i) % n
  }

  predicate Registered(stats: Stats, ssrcs: seq<Ssrc>) {
    forall i :: 0 <= i < |ssrcs| ==> ssrcs[i] in stats
  }

  function Elements(s: seq<Ssrc>): set<Ssrc> {
    set x | x in s
  }

  predicate Distinct(s: seq<Ssrc>) {
    s == [] || (s[|s| - 1] !in s[..|s| - 1] && Distinct(s[..|s| - 1]))
  }

  lemma DistinctAppend(s: seq<Ssrc>, x: Ssrc)
    ensures Elements(s + [x]) == Elements(s) + {x}
    ensures Distinct(s) && x !in Elements(s) ==> Distinct(s + [x])
  {
    assert (s + [x])[..|s|] == s;
  }

  /** A call after its first `k` visits. */
  function After(stats: Stats, ssrcs: seq<Ssrc>, cursor: nat, now: int, k: nat): (sweep: Sweep)
    requires Registered(stats, ssrcs) && (k > 0 ==> ssrcs != [])
    ensures sweep.stats.Keys == stats.Keys && |sweep.blocks| <= k
  {
    if k == 0 then Sweep(stats, [])
    else Visit(After(stats, ssrcs, cursor, now, k - 1), ssrcs[SlotAt(|ssrcs|, cursor, k - 1)], now)
  }

  /** How many visits a call makes, having made `k`. */
  function VisitsFrom(stats: Stats, ssrcs: seq<Ssrc>, cursor: nat, maxBlocks: nat, now: int, k: nat): (v: nat)
    requires Registered(stats, ssrcs) && k <= |ssrcs|
    ensures k <= v <= |ssrcs|
    decreases |ssrcs| - k
  {
    if k == |ssrcs| || |After(stats, ssrcs, cursor, now, k).blocks| >= maxBlocks then k
    else VisitsFrom(stats, ssrcs, cursor, maxBlocks, now, k + 1)
  }

  function Visits(stats: Stats, ssrcs: seq<Ssrc>, cursor: nat, maxBlocks: nat, now: int): nat
    requires Registered(stats, ssrcs)
  {
    VisitsFrom(stats, ssrcs, cursor, maxBlocks, now, 0)
  }

  lemma SweepStep(stats: Stats, ssrcs: seq<Ssrc>, cursor: nat, maxBlocks: nat, now: int, k: nat)
    requires Registered(stats, ssrcs) && k < |ssrcs|
    requires |After(stats, ssrcs, cursor, now, k).blocks| < maxBlocks
    ensures After(stats, ssrcs, cursor, now, k + 1)
            == Visit(After(stats, ssrcs, cursor, now, k), ssrcs[SlotAt(|ssrcs|, cursor, k)], now)
    ensures VisitsFrom(stats, ssrcs, cursor, maxBlocks, now, k)
            == VisitsFrom(stats, ssrcs, cursor, maxBlocks, now, k + 1)
  {
  }

  lemma SweepEnds(stats: Stats, ssrcs: seq<Ssrc>, cursor: nat, maxBlocks: nat, now: int, k: nat)
    requires Registered(stats, ssrcs) && k <= |ssrcs|
    requires k == |ssrcs| || |After(stats, ssrcs, cursor, now, k).blocks| >= maxBlocks
    ensures VisitsFrom(stats, ssrcs, cursor, maxBlocks, now, k) == k
  {
  }

  /** Where a call of `visits` visits leaves the cursor; one without visits resets it. */
  function NextCursor(n: nat, cursor: nat, visits: nat): nat {
    if visits == 0 || n == 0 then 0 else SlotAt(n, cursor, visits - 1)
  }

  /** A whole call: statistics, blocks and cursor it leaves. */
  function Call(stats: Stats, ssrcs: seq<Ssrc>, cursor: nat, maxBlocks: nat, now: int): (Sweep, nat)
    requires Registered(stats, ssrcs)
  {
    var v := Visits(stats, ssrcs, cursor, maxBlocks, now);
    (After(stats, ssrcs, cursor, now, v), NextCursor(|ssrcs|, cursor, v))
  }

  lemma NextCursorIs(n: nat, cursor: nat, k: nat)
    requires n > 0
    ensures NextCursor(n, cursor, k + 1) == SlotAt(n, cursor, k)
  {
    assert k + 1 - 1 == k;
  }

  /** A packet goes to the statistics of its SSRC, which start empty. */
  function Counted(stats: Stats, ssrc: Ssrc, p: S.Packet, now: int): Stats {
    stats[ssrc := S.OnPacket(if ssrc in stats then stats[ssrc] else S.INITIAL, p, now)]
  }

  lemma CountedNew(stats: Stats, ssrc: Ssrc, p: S.Packet, now: int)
    requires ssrc !in stats
    ensures Counted(stats[ssrc := S.INITIAL], ssrc, p, now) == Counted(stats, ssrc, p, now)
  {
    var st := S.OnPacket(S.INITIAL, p, now);
    assert stats[ssrc := S.INITIAL][ssrc := st] == stats[ssrc := st];
  }

  class ReceiveStat {
    var stats: map<Ssrc, S.StreamStat>
    var allSsrcs: seq<Ssrc>
    var lastReturned: nat

    ghost predicate Valid()
      reads `stats, `allSsrcs
    {
      && stats.Keys == Elements(allSsrcs) && Distinct(allSsrcs)
      && forall x :: x in stats ==> stats[x].ssrc == x
    }

    ghost function Value(): Stats
      reads `stats, stats.Values
    {
      map x | x in stats :: stats[x].Value()
    }

    constructor ()
      ensures Valid() && Value() == map[] && allSsrcs == [] && lastReturned == 0
    {
      stats, allSsrcs, lastReturned := map[], [], 0;
    }

    method GetOrCreateStat(ssrc: Ssrc) returns (stat: S.StreamStat)
      requires Valid()
      modifies `stats, `allSsrcs
      ensures Valid() && ssrc in stats && stat == stats[ssrc]
      ensures Value() == if ssrc in old(stats) then old(Value()) else old(Value())[ssrc := S.INITIAL]
      ensures allSsrcs == if ssrc in old(stats) then old(allSsrcs) else old(allSsrcs) + [ssrc]
      ensures ssrc in old(stats) ==> stats == old(stats)
      ensures ssrc !in old(stats) ==> fresh(stat) && stats == old(stats)[ssrc := stat]
    {
      if ssrc !in stats {
        DistinctAppend(allSsrcs, ssrc);
        stat := new S.StreamStat(ssrc);
        stats := stats[ssrc := stat];
        allSsrcs := allSsrcs + [ssrc];
        assert Value() == old(Value())[ssrc := S.INITIAL];
      }
      stat := stats[ssrc];
    }

    method OnRtpPacket(ssrc: Ssrc, p: S.Packet, now: int)
      requires Valid()
      modifies this, stats.Values
      ensures Valid()
      ensures Value() == Counted(old(Value()), ssrc, p, now)
      ensures allSsrcs == if ssrc in old(stats) then old(allSsrcs) else old(allSsrcs) + [ssrc]
    {
      if ssrc !in stats {
        CountedNew(Value(), ssrc, p, now);
      }
      var stat := GetOrCreateStat(ssrc);
      Count(ssrc, p, now);
    }

    method Count(ssrc: Ssrc, p: S.Packet, now: int)
      requires Valid() && ssrc in stats
      modifies stats[ssrc]
      ensures Valid() && Value() == Counted(old(Value()), ssrc, p, now)
    {
      stats[ssrc].UpdateCounters(p, now);
      assert Value() == old(Value())[ssrc := stats[ssrc].Value()];
      assert old(Value())[ssrc] == old(stats[ssrc].Value());
    }

    method RtcpReportBlocks(maxBlocks: nat, now: int) returns (result: seq<S.Block>)
      requires Valid()
      modifies `lastReturned, stats.Values
      ensures Valid()
      ensures Registered(old(Value()), allSsrcs)
      ensures (Sweep(Value(), result), lastReturned)
              == Call(old(Value()), allSsrcs, old(lastReturned), maxBlocks, now)
    {
      var ssrcIdx;
      result, ssrcIdx := VisitInTurn(maxBlocks, now);
      lastReturned := ssrcIdx;
    }

    /** The loop of RtcpReportBlocks; `ssrcIdx` is the slot visited last. */
    method VisitInTurn(maxBlocks: nat, now: int) returns (result: seq<S.Block>, ssrcIdx: nat)
      requires Valid()
      modifies stats.Values
      ensures Valid()
      ensures Registered(old(Value()), allSsrcs)
      ensures (Sweep(Value(), result), ssrcIdx) == Call(old(Value()), allSsrcs, lastReturned, maxBlocks, now)
    {
      result := [];
      ssrcIdx := 0;
      var i := 0;
      ghost var before, ssrcs, cursor := Value(), allSsrcs, lastReturned;
      ghost var visits := Visits(before, ssrcs, cursor, maxBlocks, now);
      while i < |allSsrcs| && |result| < maxBlocks
        invariant Valid() && i <= |ssrcs|
        invariant Sweep(Value(), result) == After(before, ssrcs, cursor, now, i)
        invariant VisitsFrom(before, ssrcs, cursor, maxBlocks, now, i) == visits
        invariant ssrcIdx == NextCursor(|ssrcs|, cursor, i)
        decreases |ssrcs| - i
      {
        result, ssrcIdx := VisitNext(before, maxBlocks, i, result, now);
        i := i + 1;
      }
      SweepEnds(before, ssrcs, cursor, maxBlocks, now, i);
    }

    /** One turn of the loop: visit number `i` of a call that found the statistics `before`. */
    method VisitNext(ghost before: Stats, ghost maxBlocks: nat, i: nat, blocks: seq<S.Block>, now: int)
      returns (result: seq<S.Block>, ssrcIdx: nat)
      requires Valid() && Registered(before, allSsrcs) && i < |allSsrcs| && |blocks| < maxBlocks
      requires Sweep(Value(), blocks) == After(before, allSsrcs, lastReturned, now, i)
      modifies stats.Values
      ensures Valid() && ssrcIdx == NextCursor(|allSsrcs|, lastReturned, i + 1)
      ensures Sweep(Value(), result) == After(before, allSsrcs, lastReturned, now, i + 1)
      ensures VisitsFrom(before, allSsrcs, lastReturned, maxBlocks, now, i)
              == VisitsFrom(before, allSsrcs, lastReturned, maxBlocks, now, i + 1)
    {
      SweepStep(before, allSsrcs, lastReturned, maxBlocks, now, i);
      NextCursorIs(|allSsrcs|, lastReturned, i);
      ssrcIdx := SlotAt(|allSsrcs|, lastReturned, i);
      result := Report(allSsrcs[ssrcIdx], blocks, now);
    }

    method Report(ssrc: Ssrc, blocks: seq<S.Block>, now: int) returns (result: seq<S.Block>)
      requires Valid() && ssrc in stats
      modifies stats[ssrc]
      ensures Valid() && Sweep(Value(), result) == Visit(Sweep(old(Value()), blocks), ssrc, now)
    {
      result := stats[ssrc].MaybeAppendReportBlockAndReset(blocks, now);
      assert Value() == old(Value())[ssrc := stats[ssrc].Value()];
      assert old(Value())[ssrc] == old(stats[ssrc].Value());
      assert old(Value())[ssrc := old(Value())[ssrc]] == old(Value());
    }
  }
}
