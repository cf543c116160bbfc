/** Bookkeeping of missing packets: an age-ordered list keyed by 16-bit numbers, key-frame anchors for
    the overflow eviction, retry limits and retry spacing.  std::map and std::set with the wrap-aware
    comparator are sequences in iteration order, oldest first. */
module NackRequester {
  import opened SeqNum
  import H = Histogram

  const MAX_NACK_RETRIES := 10
  const MAX_PACKET_AGE := 10000
  const MAX_NACK_PACKETS := 1000
  const NUM_REORDERING_BUCKETS := 10
  const MAX_REORDERING_PACKETS := 128
  const DEFAULT_RTT_MS := 100

  datatype NackInfo = NackInfo(seqNum: Seq16, sendAtSeqNum: Seq16, createdTime: int, sendAtTime: int,
                               retries: nat)

  datatype NackFilter = SeqNumOnly | TimeOnly | SeqNumAndTime

  function LowerBoundFrom(ks: seq<Seq16>, x: Seq16, i: nat): (c: nat)
    requires i <= |ks|
    ensures c <= |ks|
    decreases |ks| - i
  {
    if i == |ks| || !AheadOf(x, ks[i]) then i else LowerBoundFrom(ks, x, i + 1)
  }

  /** lower_bound: the first position whose number is not older than `x`. */
  function LowerBound(ks: seq<Seq16>, x: Seq16): (c: nat)
    ensures c <= |ks|
  {
    LowerBoundFrom(ks, x, 0)
  }

  function Keys(list: seq<NackInfo>): (ks: seq<Seq16>)
    ensures |ks| == |list|
  {
    seq(|list|, i requires 0 <= i < |list| => list[i].seqNum)
  }

  function NotOlder(list: seq<NackInfo>, x: Seq16): seq<NackInfo> {
    list[LowerBound(Keys(list), x)..]
  }

  function InsertKey(ks: seq<Seq16>, x: Seq16): seq<Seq16> {
    var i := LowerBound(ks, x);
    if i < |ks| && ks[i] == x then ks else ks[..i] + [x] + ks[i..]
  }

  function Put(list: seq<NackInfo>, info: NackInfo): seq<NackInfo> {
    var i := LowerBound(Keys(list), info.seqNum);
    if i < |list| && list[i].seqNum == info.seqNum then list[i := info]
    else list[..i] + [info] + list[i..]
  }

  function IndexFrom(list: seq<NackInfo>, s: Seq16, i: nat): (c: nat)
    requires i <= |list|
    ensures c <= |list|
    decreases |list| - i
  {
    if i == |list| || list[i].seqNum == s then i else IndexFrom(list, s, i + 1)
  }

  /** find: the position of `s`, or the end. */
  function IndexOf(list: seq<NackInfo>, s: Seq16): (c: nat)
    ensures c <= |list|
  {
    IndexFrom(list, s, 0)
  }

  /** Drops anchors until one has something older in the list, and drops that. */
  function RemoveUntilKeyFrame(list: seq<NackInfo>, ks: seq<Seq16>): (r: (bool, seq<NackInfo>, seq<Seq16>))
    ensures |r.2| <= |ks| && |r.1| <= |list| && (r.0 ==> |r.1| < |list|)
    decreases |ks|
  {
    if ks == [] then (false, list, ks)
    else
      var i := LowerBound(Keys(list), ks[0]);
      if i > 0 then (true, list[i..], ks) else RemoveUntilKeyFrame(list, ks[1..])
  }

  function EvictLoop(list: seq<NackInfo>, ks: seq<Seq16>, incoming: nat): (r: (seq<NackInfo>, seq<Seq16>))
    decreases |list|
  {
    var (removed, list', ks') := RemoveUntilKeyFrame(list, ks);
    if removed && |list'| + incoming > MAX_NACK_PACKETS then EvictLoop(list', ks', incoming) else (list', ks')
  }

  /** A fresh record for the number `i` steps above `s`. */
  function Missing(s: Seq16, i: nat, wait: nat, now: int): NackInfo {
    NackInfo(Low(s + i), Low(s + i + wait), now, -1, 0)
  }

  /** The missing numbers s, s+1, ..., `count` of them, entered one after the other. */
  function AddRange(list: seq<NackInfo>, s: Seq16, count: nat, wait: nat, now: int): seq<NackInfo> {
    if count == 0 then list
    else Put(AddRange(list, s, count - 1, wait, now), Missing(s, count - 1, wait, now))
  }

  /** Enters `incoming` numbers from `start` on, evicting for them if there are too many. */
  function Enter(list: seq<NackInfo>, ks: seq<Seq16>, start: Seq16, incoming: nat, wait: nat, now: int)
    : (r: (seq<NackInfo>, seq<Seq16>))
  {
    if |list| + incoming <= MAX_NACK_PACKETS then (AddRange(list, start, incoming, wait, now), ks)
    else
      var (kept, ks') := EvictLoop(list, ks, incoming);
      (if |kept| + incoming > MAX_NACK_PACKETS then [] else AddRange(kept, start, incoming, wait, now), ks')
  }

  function AddPackets(list: seq<NackInfo>, ks: seq<Seq16>, start: Seq16, end: Seq16, wait: nat, now: int)
    : (r: (seq<NackInfo>, seq<Seq16>))
  {
    Enter(NotOlder(list, Low(end - MAX_PACKET_AGE)), ks, start, ForwardDiff(start, end), wait, now)
  }

  predicate Due(e: NackInfo, filter: NackFilter, newest: Seq16, now: int, rtt: int) {
    && now - e.createdTime >= 0
    && ((filter != TimeOnly && e.sendAtTime == -1 && AheadOrAt(newest, e.sendAtSeqNum)) ||
        (filter != SeqNumOnly && now - e.sendAtTime > rtt))
  }

  function BatchOf(list: seq<NackInfo>, filter: NackFilter, newest: Seq16, now: int, rtt: int): seq<Seq16> {
    if list == [] then []
    else
      var e := list[|list| - 1];
      BatchOf(list[..|list| - 1], filter, newest, now, rtt) +
      if Due(e, filter, newest, now, rtt) then [e.seqNum] else []
  }

  /** What a batch leaves of one entry. */
  function Marked(e: NackInfo, now: int): seq<NackInfo> {
    if e.retries + 1 >= MAX_NACK_RETRIES then [] else [e.(retries := e.retries + 1, sendAtTime := now)]
  }

  function AfterBatch(list: seq<NackInfo>, filter: NackFilter, newest: Seq16, now: int, rtt: int): seq<NackInfo> {
    if list == [] then []
    else
      var e := list[|list| - 1];
      AfterBatch(list[..|list| - 1], filter, newest, now, rtt) +
      if Due(e, filter, newest, now, rtt) then Marked(e, now) else [e]
  }

  datatype Nack = Nack(initialized: bool, newest: Seq16, list: seq<NackInfo>, keyFrames: seq<Seq16>,
                       rtt: int, samples: seq<nat>)

  const INITIAL := Nack(false, 0, [], [], DEFAULT_RTT_MS, [])

  function WaitPackets(samples: seq<nat>): (n: nat)
    ensures n <= NUM_REORDERING_BUCKETS
  {
    if samples == [] then 0
    else H.Quantile(H.Window(samples, MAX_REORDERING_PACKETS), 0.5, NUM_REORDERING_BUCKETS)
  }

  function Batch(st: Nack, filter: NackFilter, now: int): (r: (Nack, seq<Seq16>)) {
    (st.(list := AfterBatch(st.list, filter, st.newest, now, st.rtt)),
     BatchOf(st.list, filter, st.newest, now, st.rtt))
  }

  datatype Reply = Reply(state: Nack, timesNacked: nat, batch: seq<Seq16>)

  function OldPacket(st: Nack, s: Seq16, isRetransmitted: bool): Reply {
    var i := IndexOf(st.list, s);
    var samples := if isRetransmitted then st.samples
                   else st.samples + [H.Clamp(ReverseDiff(st.newest, s), NUM_REORDERING_BUCKETS)];
    if i < |st.list| then
      Reply(st.(list := st.list[..i] + st.list[i + 1..], samples := samples), st.list[i].retries, [])
    else
      Reply(st.(samples := samples), 0, [])
  }

  /** The anchors kept for frontier `s`, the new one included. */
  function RecentKeys(ks: seq<Seq16>, s: Seq16, isKeyFrame: bool): seq<Seq16> {
    var all := if isKeyFrame then InsertKey(ks, s) else ks;
    all[LowerBound(all, Low(s - MAX_PACKET_AGE))..]
  }

  /** The frontier moves to `s`: the gap is entered and what is too old is dropped. */
  function Advance(st: Nack, s: Seq16, isKeyFrame: bool, now: int): Nack {
    var (list, ks') := AddPackets(st.list, RecentKeys(st.keyFrames, s, isKeyFrame), Low(st.newest + 1), s,
                                  WaitPackets(st.samples), now);
    st.(newest := s, list := list, keyFrames := ks')
  }

  function NewPacket(st: Nack, s: Seq16, isKeyFrame: bool, now: int): Reply {
    var (st', batch) := Batch(Advance(st, s, isKeyFrame, now), SeqNumOnly, now);
    Reply(st', 0, batch)
  }

  function OnPacket(st: Nack, s: Seq16, isKeyFrame: bool, isRetransmitted: bool, now: int): Reply {
    if !st.initialized then
      Reply(st.(initialized := true, newest := s,
                keyFrames := if isKeyFrame then InsertKey(st.keyFrames, s) else st.keyFrames), 0, [])
    else if s == st.newest then Reply(st, 0, [])
    else if AheadOf(st.newest, s) then OldPacket(st, s, isRetransmitted)
    else NewPacket(st, s, isKeyFrame, now)
  }

  class NackRequester {
    var initialized: bool
    var newest: Seq16
    var nackList: seq<NackInfo>
    var keyFrameList: seq<Seq16>
    var rttMs: int
    const histogram: H.Histogram
    /** What SignalNackSend was given, batch by batch. */
    ghost var nacksSent: seq<seq<Seq16>>

    ghost predicate Valid()
      reads this, histogram, histogram.buckets
    {
      && histogram.Valid()
      && histogram.buckets.Length == NUM_REORDERING_BUCKETS
      && histogram.capacity == MAX_REORDERING_PACKETS
    }

    ghost function Value(): Nack
      reads this, histogram
    {
      Nack(initialized, newest, nackList, keyFrameList, rttMs, histogram.samples)
    }

    constructor ()
      ensures Valid() && fresh(histogram) && fresh(histogram.buckets)
      ensures Value() == INITIAL && nacksSent == []
    {
      initialized, newest, nackList, keyFrameList, rttMs := false, 0, [], [], DEFAULT_RTT_MS;
      nacksSent := [];
      histogram := new H.Histogram(NUM_REORDERING_BUCKETS, MAX_REORDERING_PACKETS);
    }

    method UpdateRtt(rtt: int)
      requires Valid()
      modifies `rttMs
      ensures Valid() && Value() == old(Value()).(rtt := rtt)
    {
      rttMs := rtt;
    }

    /** The timer callback. */
    method ProcessNacks(now: int)
      requires Valid()
      modifies `nackList, `nacksSent
      ensures Valid() && Value() == Batch(old(Value()), TimeOnly, now).0
      ensures nacksSent == old(nacksSent) + Signal(Batch(old(Value()), TimeOnly, now).1)
    {
      SignalBatch(TimeOnly, now);
    }

    method SignalBatch(filter: NackFilter, now: int)
      requires Valid()
      modifies `nackList, `nacksSent
      ensures Valid() && Value() == Batch(old(Value()), filter, now).0
      ensures nacksSent == old(nacksSent) + Signal(Batch(old(Value()), filter, now).1)
    {
      var batch := GetNackBatch(filter, now);
      if batch != [] {
        nacksSent := nacksSent + [batch];
      }
    }

    /** An empty batch is not signalled. */
    static ghost function Signal(batch: seq<Seq16>): seq<seq<Seq16>> {
      if batch == [] then [] else [batch]
    }

    method OnReceivedPacket(s: Seq16, isKeyFrame: bool, isRetransmitted: bool, now: int)
      returns (timesNacked: nat)
      requires Valid()
      modifies this, histogram, histogram.buckets
      ensures Valid()
      ensures var reply := OnPacket(old(Value()), s, isKeyFrame, isRetransmitted, now);
              Value() == reply.state && timesNacked == reply.timesNacked &&
              nacksSent == old(nacksSent) + Signal(reply.batch)
    {
      if !initialized {
        newest := s;
        if isKeyFrame {
          InsertKeyFrame(s);
        }
        initialized := true;
        return 0;
      }
      if s == newest {
        return 0;
      }
      if AheadOf(newest, s) {
        timesNacked := ReceiveOld(s, isRetransmitted);
      } else {
        ReceiveNew(s, isKeyFrame, now);
        timesNacked := 0;
      }
    }

    /** The branch of OnReceivedPacket for numbers behind the frontier. */
    method ReceiveOld(s: Seq16, isRetransmitted: bool) returns (timesNacked: nat)
      requires Valid()
      modifies `nackList, histogram, histogram.buckets
      ensures Valid()
      ensures var reply := OldPacket(old(Value()), s, isRetransmitted);
              Value() == reply.state && timesNacked == reply.timesNacked && reply.batch == []
    {
      timesNacked := 0;
      var i := IndexOf(nackList, s);
      if i < |nackList| {
        timesNacked := nackList[i].retries;
        nackList := nackList[..i] + nackList[i + 1..];
      }
      if !isRetransmitted {
        histogram.Add(ReverseDiff(newest, s));
      }
    }

    /** The branch of OnReceivedPacket that moves the frontier. */
    method ReceiveNew(s: Seq16, isKeyFrame: bool, now: int)
      requires Valid()
      modifies `newest, `nackList, `keyFrameList, `nacksSent
      ensures Valid()
      ensures var reply := NewPacket(old(Value()), s, isKeyFrame, now);
              Value() == reply.state && reply.timesNacked == 0 &&
              nacksSent == old(nacksSent) + Signal(reply.batch)
    {
      AdvanceFrontier(s, isKeyFrame, now);
      SignalBatch(SeqNumOnly, now);
    }

    method AdvanceFrontier(s: Seq16, isKeyFrame: bool, now: int)
      requires Valid()
      modifies `newest, `nackList, `keyFrameList
      ensures Valid()
      ensures Value() == Advance(old(Value()), s, isKeyFrame, now)
    {
      if isKeyFrame {
        InsertKeyFrame(s);
      }
      keyFrameList := keyFrameList[LowerBound(keyFrameList, Low(s - MAX_PACKET_AGE))..];
      AddPacketsToNack(Low(newest + 1), s, now);
      newest := s;
    }

    method InsertKeyFrame(s: Seq16)
      modifies `keyFrameList
      ensures keyFrameList == InsertKey(old(keyFrameList), s)
    {
      var i := LowerBound(keyFrameList, s);
      if i == |keyFrameList| || keyFrameList[i] != s {
        keyFrameList := keyFrameList[..i] + [s] + keyFrameList[i..];
      }
    }

    method WaitNumberOfPackets() returns (n: nat)
      requires Valid()
      ensures n == WaitPackets(histogram.samples)
    {
      if histogram.NumValues() == 0 {
        return 0;
      }
      n := histogram.InverseCdf(0.5);
    }

    method RemovePacketsUntilKeyFrame() returns (removed: bool)
      modifies `nackList, `keyFrameList
      ensures (removed, nackList, keyFrameList) == RemoveUntilKeyFrame(old(nackList), old(keyFrameList))
    {
      while keyFrameList != []
        invariant nackList == old(nackList)
        invariant RemoveUntilKeyFrame(nackList, keyFrameList) ==
                  RemoveUntilKeyFrame(old(nackList), old(keyFrameList))
        decreases |keyFrameList|
      {
        var i := LowerBound(Keys(nackList), keyFrameList[0]);
        if i != 0 {
          nackList := nackList[i..];
          return true;
        }
        keyFrameList := keyFrameList[1..];
      }
      return false;
    }

    method AddPacketsToNack(start: Seq16, end: Seq16, now: int)
      requires Valid()
      modifies `nackList, `keyFrameList
      ensures Valid()
      ensures (nackList, keyFrameList) ==
              AddPackets(old(nackList), old(keyFrameList), start, end, WaitPackets(histogram.samples), now)
    {
      nackList := nackList[LowerBound(Keys(nackList), Low(end - MAX_PACKET_AGE))..];
      var incoming := ForwardDiff(start, end);
      if |nackList| + incoming > MAX_NACK_PACKETS {
        EvictForRoom(incoming);
        if |nackList| + incoming > MAX_NACK_PACKETS {
          nackList := [];
          return;
        }
      }
      EnterRange(start, end, now);
    }

    method EnterRange(start: Seq16, end: Seq16, now: int)
      requires Valid()
      modifies `nackList
      ensures nackList == AddRange(old(nackList), start, ForwardDiff(start, end),
                                   WaitPackets(histogram.samples), now)
    {
      var s: Seq16 := start;
      ghost var w := WaitPackets(histogram.samples);
      ghost var count := 0;
      while s != end
        invariant count <= ForwardDiff(start, end) && s == Low(start + count)
        invariant nackList == AddRange(old(nackList), start, count, w, now)
        decreases ForwardDiff(start, end) - count
      {
        CountToEnd(start, end, count);
        RangeStep(old(nackList), start, count, w, now);
        var wait := WaitNumberOfPackets();
        InsertMissing(NackInfo(s, Low(s + wait), now, -1, 0));
        s := Low(s + 1);
        count := count + 1;
      }
      CountToEnd(start, end, count);
    }

    static lemma RangeStep(list: seq<NackInfo>, start: Seq16, count: nat, wait: nat, now: int)
      ensures var s := Low(start + count);
              Low(s + 1) == Low(start + (count + 1)) &&
              AddRange(list, start, count + 1, wait, now) ==
              Put(AddRange(list, start, count, wait, now), NackInfo(s, Low(s + wait), now, -1, 0))
    {
      LowOfSum(start + count, 1);
      LowOfSum(start + count, wait);
    }

    static lemma CountToEnd(start: Seq16, end: Seq16, count: nat)
      requires count <= ForwardDiff(start, end)
      ensures Low(start + count) == end <==> count == ForwardDiff(start, end)
    {
    }

    method EvictForRoom(incoming: nat)
      modifies `nackList, `keyFrameList
      ensures (nackList, keyFrameList) == EvictLoop(old(nackList), old(keyFrameList), incoming)
    {
      var removed := RemovePacketsUntilKeyFrame();
      while removed && |nackList| + incoming > MAX_NACK_PACKETS
        invariant EvictLoop(old(nackList), old(keyFrameList), incoming) ==
                  if removed && |nackList| + incoming > MAX_NACK_PACKETS
                  then EvictLoop(nackList, keyFrameList, incoming) else (nackList, keyFrameList)
        decreases |nackList|, removed
      {
        removed := RemovePacketsUntilKeyFrame();
      }
    }

    method InsertMissing(info: NackInfo)
      modifies `nackList
      ensures nackList == Put(old(nackList), info)
    {
      var i := LowerBound(Keys(nackList), info.seqNum);
      if i < |nackList| && nackList[i].seqNum == info.seqNum {
        nackList := nackList[i := info];
      } else {
        nackList := nackList[..i] + [info] + nackList[i..];
      }
    }

    static lemma BatchNext(all: seq<NackInfo>, k: nat, filter: NackFilter, newest: Seq16, now: int, rtt: int)
      requires k < |all|
      ensures var e := all[k];
              var due := Due(e, filter, newest, now, rtt);
              BatchOf(all[..k + 1], filter, newest, now, rtt)
              == BatchOf(all[..k], filter, newest, now, rtt) + (if due then [e.seqNum] else []) &&
              AfterBatch(all[..k + 1], filter, newest, now, rtt)
              == AfterBatch(all[..k], filter, newest, now, rtt) + if due then Marked(e, now) else [e]
    {
      assert all[..k + 1][..k] == all[..k];
    }

    method GetNackBatch(filter: NackFilter, now: int) returns (batch: seq<Seq16>)
      modifies `nackList
      ensures nackList == AfterBatch(old(nackList), filter, newest, now, rttMs)
      ensures batch == BatchOf(old(nackList), filter, newest, now, rttMs)
    {
      ghost var all := nackList;
      batch := [];
      var it := 0;
      ghost var seen := 0;
      while it < |nackList|
        invariant seen <= |all| && it <= |nackList| && nackList[it..] == all[seen..]
        invariant nackList[..it] == AfterBatch(all[..seen], filter, newest, now, rttMs)
        invariant batch == BatchOf(all[..seen], filter, newest, now, rttMs)
        decreases |all| - seen
      {
        var e := nackList[it];
        assert e == all[seen];
        BatchNext(all, seen, filter, newest, now, rttMs);
        assert nackList[it..][1..] == all[seen..][1..];
        seen := seen + 1;
        if Due(e, filter, newest, now, rttMs) {
          batch := batch + [e.seqNum];
          if e.retries + 1 >= MAX_NACK_RETRIES {
            nackList := nackList[..it] + nackList[it + 1..];
          } else {
            nackList := nackList[it := e.(retries := e.retries + 1, sendAtTime := now)];
            it := it + 1;
          }
        } else {
          it := it + 1;
        }
      }
      assert all[..seen] == all && nackList[..it] == nackList;
    }
  }
}
