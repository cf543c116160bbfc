/** The proof that the wrap-aware containers of the code behave exactly like the ordered ones of the
    unbounded model. */
module NackRefinement {
  import opened SeqNum
  import opened N = NackRequester
  import opened NackIdeal
  import opened NackShape

  // ----- the wrap-aware containers behave like the ordered ones

  lemma {:induction false} LowerBoundFromRefines(ks: seq<int>, x: int, i: nat)
    requires Near(ks, x) && i <= |ks|
    ensures LowerBoundFrom(LowAll(ks), Low(x), i) == CountFrom(ks, x, i)
    decreases |ks| - i
  {
    if i < |ks| {
      assert -0x8000 < x - At(ks, i) < 0x8000;
      AheadIsOrder(x, ks[i]);
      LowerBoundFromRefines(ks, x, i + 1);
    }
  }

  /** Within half a circle the wrap comparator cuts where ordinary comparison does. */
  lemma LowerBoundRefines(ks: seq<int>, x: int)
    requires Near(ks, x)
    ensures LowerBound(LowAll(ks), Low(x)) == CountBelow(ks, x)
  {
    LowerBoundFromRefines(ks, x, 0);
  }

  lemma KeysOfWire(list: seq<Entry>)
    ensures Keys(WireAll(list)) == LowAll(Numbers(list))
  {
  }

  lemma NotOlderRefines(list: seq<Entry>, x: int)
    requires Near(Numbers(list), x)
    ensures LowerBound(Keys(WireAll(list)), Low(x)) == CountBelow(Numbers(list), x)
    ensures NotOlder(WireAll(list), Low(x)) == WireAll(Since(list, x))
  {
    KeysOfWire(list);
    LowerBoundRefines(Numbers(list), x);
  }

  lemma KeysSinceRefines(ks: seq<int>, x: int)
    requires Near(ks, x)
    ensures LowAll(ks)[LowerBound(LowAll(ks), Low(x))..] == LowAll(KeysSince(ks, x))
  {
    LowerBoundRefines(ks, x);
  }

  lemma InsertNewest(ks: seq<int>, n: int, low: int)
    requires KeysListed(ks, low, n - 1) && Near(ks, n)
    ensures InsertKey(LowAll(ks), Low(n)) == LowAll(ks + [n])
  {
    LowerBoundRefines(ks, n);
    AllBelow(ks, low, n);
  }

  lemma AllBelow(ks: seq<int>, low: int, n: int)
    requires KeysListed(ks, low, n - 1)
    ensures CountBelow(ks, n) == |ks|
  {
    if ks != [] { assert At(ks, |ks| - 1) < n; }
    CutIs(ks, n, |ks|);
  }

  lemma PutNewest(list: seq<Entry>, e: Entry, low: int)
    requires Listed(list, low, e.n - 1) && Near(Numbers(list), e.n)
    ensures Put(WireAll(list), Wire(e)) == WireAll(list + [e])
  {
    NotOlderRefines(list, e.n);
    AllBelow(Numbers(list), low, e.n);
  }

  lemma NearAbove(ks: seq<int>, low: int, high: int, x: int)
    requires KeysListed(ks, low, high) && x - 0x8000 < low && high < x + 0x8000
    ensures Near(ks, x)
  {
  }

  lemma PutNext(list: seq<Entry>, start: int, count: nat, wait: nat, now: int)
    requires Listed(list, start - 20000, start + count - 1) && count < MAX_NACK_PACKETS
    ensures Put(WireAll(list), Missing(Low(start), count, wait, now))
            == WireAll(list + [Entry(start + count, start + count + wait, now, -1, 0)])
  {
    LowOfSum(start, count);
    LowOfSum(start, count + wait);
    NearAbove(Numbers(list), start - 20000, start + count - 1, start + count);
    PutNewest(list, Entry(start + count, start + count + wait, now, -1, 0), start - 20000);
  }

  lemma GapNext(list: seq<Entry>, start: int, count: nat, wait: nat, now: int)
    ensures list + Gap(start, count + 1, wait, now)
            == list + Gap(start, count, wait, now) + [Entry(start + count, start + count + wait, now, -1, 0)]
  {
  }

  lemma AddRangeStep(list: seq<NackInfo>, s: Seq16, count: nat, wait: nat, now: int)
    ensures AddRange(list, s, count + 1, wait, now)
            == Put(AddRange(list, s, count, wait, now), Missing(s, count, wait, now))
  {
  }

  lemma AddRangeNext(list: seq<Entry>, start: int, count: nat, wait: nat, now: int)
    requires Listed(list + Gap(start, count, wait, now), start - 20000, start + count - 1)
    requires count < MAX_NACK_PACKETS
    requires AddRange(WireAll(list), Low(start), count, wait, now) == WireAll(list + Gap(start, count, wait, now))
    ensures AddRange(WireAll(list), Low(start), count + 1, wait, now)
            == WireAll(list + Gap(start, count + 1, wait, now))
  {
    AddRangeStep(WireAll(list), Low(start), count, wait, now);
    PutNext(list + Gap(start, count, wait, now), start, count, wait, now);
    GapNext(list, start, count, wait, now);
  }

  lemma {:induction false} AddRangeRefines(list: seq<Entry>, start: int, count: nat, wait: nat, now: int)
    requires Listed(list, start - 20000, start - 2) && count <= MAX_NACK_PACKETS
    requires wait <= NUM_REORDERING_BUCKETS
    ensures AddRange(WireAll(list), Low(start), count, wait, now) == WireAll(list + Gap(start, count, wait, now))
  {
    if count == 0 {
      assert list + Gap(start, 0, wait, now) == list;
    } else {
      AddRangeRefines(list, start, count - 1, wait, now);
      AppendGap(list, start - 20000, start - 1, count - 1, wait, now);
      AddRangeNext(list, start, count - 1, wait, now);
    }
  }

  /** Dropping what an older anchor drops changes nothing for the younger ones. */
  lemma {:induction false} FirstFitFromSince(list: seq<Entry>, x: int, ks: seq<int>, incoming: nat, i: nat)
    requires Ascending(Numbers(list)) && i <= |ks| && forall j: nat :: i <= j < |ks| ==> x <= At(ks, j)
    ensures FirstFitFrom(Since(list, x), ks, incoming, i) == FirstFitFrom(list, ks, incoming, i)
    decreases |ks| - i
  {
    if i < |ks| {
      assert x <= At(ks, i);
      SinceTwice(list, x, ks[i]);
      FirstFitFromSince(list, x, ks, incoming, i + 1);
    }
  }

  /** The anchor the eviction stops at is the first one that makes room in the original list. */
  lemma {:induction false} EvictedIsFirstFit(list: seq<Entry>, ks: seq<int>, incoming: nat, i: nat)
    requires Ascending(ks) && Ascending(Numbers(list)) && !Fits(list, incoming) && i <= |ks|
    ensures var c := FirstFitFrom(list, ks, incoming, i);
            var e := Evicted(list, ks, incoming, i);
            e.1 == ks[c..] && if c < |ks| then e.0 == Since(list, ks[c]) else !Fits(e.0, incoming)
    decreases |ks| - i
  {
    if i < |ks| && !Fits(Since(list, ks[i]), incoming) {
      var l := Since(list, ks[i]);
      var c := FirstFitFrom(list, ks, incoming, i + 1);
      forall j: nat | i < j < |ks| ensures ks[i] <= At(ks, j) { assert At(ks, i) < At(ks, j); }
      FirstFitFromSince(list, ks[i], ks, incoming, i + 1);
      SinceAscending(list, ks[i]);
      EvictedIsFirstFit(l, ks, incoming, i + 1);
      if c < |ks| {
        FirstFitFromBeyond(list, ks, incoming, i + 1);
        assert At(ks, i) < At(ks, c);
        SinceTwice(list, ks[i], ks[c]);
      }
    }
  }

  lemma {:induction false} FirstFitFromBeyond(list: seq<Entry>, ks: seq<int>, incoming: nat, i: nat)
    requires i <= |ks|
    ensures FirstFitFrom(list, ks, incoming, i) >= i
    decreases |ks| - i
  {
    if i < |ks| && !Fits(Since(list, ks[i]), incoming) {
      FirstFitFromBeyond(list, ks, incoming, i + 1);
    }
  }

  lemma SinceAscending(list: seq<Entry>, x: int)
    requires Ascending(Numbers(list))
    ensures Ascending(Numbers(Since(list, x)))
  {
    var c := CountBelow(Numbers(list), x);
    NumbersPiece(list, c, |list|);
    Piece(Numbers(list), c, |list|);
    assert list[c..|list|] == Since(list, x);
  }

  lemma EvictStep(list: seq<NackInfo>, ks: seq<Seq16>, incoming: nat)
    requires ks != []
    ensures var c := LowerBound(Keys(list), ks[0]);
            EvictLoop(list, ks, incoming) == if c == 0 then EvictLoop(list, ks[1..], incoming)
                                             else if |list| - c + incoming > MAX_NACK_PACKETS
                                             then EvictLoop(list[c..], ks, incoming)
                                             else (list[c..], ks)
  {
  }

  lemma AnchorNear(list: seq<Entry>, ks: seq<int>, n: int, i: nat)
    requires Evictable(list, ks, n) && i < |ks|
    ensures Near(Numbers(list), ks[i])
  {
    assert n - MAX_PACKET_AGE <= At(ks, i) <= n;
    NearAbove(Numbers(list), n - MAX_PACKET_AGE, n, ks[i]);
  }

  lemma {:induction false} EvictLoopRefines(list: seq<Entry>, ks: seq<int>, n: int, incoming: nat, i: nat)
    requires Evictable(list, ks, n) && !Fits(list, incoming) && i <= |ks|
    ensures EvictLoop(WireAll(list), LowAll(ks[i..]), incoming) == WirePair(Evicted(list, ks, incoming, i))
    decreases |list|, |ks| - i
  {
    if i < |ks| {
      var l, w := Since(list, ks[i]), LowAll(ks[i..]);
      AnchorNear(list, ks, n, i);
      NotOlderRefines(list, ks[i]);
      SinceListed(list, ks[i], n - MAX_PACKET_AGE, n);
      EvictStep(WireAll(list), w, incoming);
      assert w[0] == Low(ks[i]) && w[1..] == LowAll(ks[i + 1..]);
      assert WireAll(l) == WireAll(list)[|list| - |l|..];
      if |l| == |list| {
        assert l == list;
        EvictLoopRefines(list, ks, n, incoming, i + 1);
      } else if !Fits(l, incoming) {
        SinceTwice(list, ks[i], ks[i]);
        EvictLoopRefines(l, ks, n, incoming, i);
      }
    }
  }

  lemma AddPacketsRefines(list: seq<Entry>, ks: seq<int>, frontier: int, n: int, wait: nat, now: int)
    requires n > frontier && n - frontier < 0x8000 && wait <= NUM_REORDERING_BUCKETS
    requires Listed(list, frontier - MAX_PACKET_AGE, frontier - 1)
    requires KeysListed(ks, n - MAX_PACKET_AGE, n)
    ensures AddPackets(WireAll(list), LowAll(ks), Low(frontier + 1), Low(n), wait, now)
            == WirePair(MakeRoom(Since(list, n - MAX_PACKET_AGE), ks,
                                 Gap(frontier + 1, n - frontier - 1, wait, now)))
  {
    var x := n - MAX_PACKET_AGE;
    DropOldRefines(list, frontier, n);
    GapSize(frontier, n);
    SinceListed(list, x, frontier - MAX_PACKET_AGE, frontier - 1);
    EnterRefines(Since(list, x), ks, frontier, n, wait, now);
  }

  lemma DropOldRefines(list: seq<Entry>, frontier: int, n: int)
    requires n > frontier && n - frontier < 0x8000 && Listed(list, frontier - MAX_PACKET_AGE, frontier - 1)
    ensures NotOlder(WireAll(list), Low(Low(n) - MAX_PACKET_AGE)) == WireAll(Since(list, n - MAX_PACKET_AGE))
  {
    LowOfSum(n, -MAX_PACKET_AGE);
    NearAbove(Numbers(list), frontier - MAX_PACKET_AGE, frontier - 1, n - MAX_PACKET_AGE);
    NotOlderRefines(list, n - MAX_PACKET_AGE);
  }

  lemma GapSize(frontier: int, n: int)
    requires frontier < n < frontier + 0x1_0000
    ensures ForwardDiff(Low(frontier + 1), Low(n)) == n - frontier - 1
  {
    LowOfSum(frontier + 1, n - frontier - 1);
  }

  lemma EnterRefines(list: seq<Entry>, ks: seq<int>, frontier: int, n: int, wait: nat, now: int)
    requires n > frontier && wait <= NUM_REORDERING_BUCKETS
    requires Listed(list, n - MAX_PACKET_AGE, frontier - 1) && KeysListed(ks, n - MAX_PACKET_AGE, n)
    ensures Enter(WireAll(list), LowAll(ks), Low(frontier + 1), n - frontier - 1, wait, now)
            == WirePair(MakeRoom(list, ks, Gap(frontier + 1, n - frontier - 1, wait, now)))
  {
    var count := n - frontier - 1;
    if Fits(list, count) {
      RoomyRefines(list, frontier, n, wait, now);
    } else {
      var (kept, ks') := Evicted(list, ks, count, 0);
      ListedWiden(list, n - MAX_PACKET_AGE, frontier - 1, n - MAX_PACKET_AGE, n);
      EvictLoopRefines(list, ks, n, count, 0);
      assert ks[0..] == ks;
      CrowdedRefines(list, ks, frontier, n, wait, now);
      EnterCrowded(WireAll(list), LowAll(ks), Low(frontier + 1), count, wait, now, WireAll(kept), LowAll(ks'));
    }
  }

  lemma EnterCrowded(list: seq<NackInfo>, ks: seq<Seq16>, start: Seq16, incoming: nat, wait: nat, now: int,
                     kept: seq<NackInfo>, ks': seq<Seq16>)
    requires |list| + incoming > MAX_NACK_PACKETS && EvictLoop(list, ks, incoming) == (kept, ks')
    ensures Enter(list, ks, start, incoming, wait, now)
            == (if |kept| + incoming > MAX_NACK_PACKETS then [] else AddRange(kept, start, incoming, wait, now), ks')
  {
  }

  /** Once the anchors have been tried, the gap is entered exactly if some anchor made room. */
  lemma CrowdedRefines(list: seq<Entry>, ks: seq<int>, frontier: int, n: int, wait: nat, now: int)
    requires n > frontier && wait <= NUM_REORDERING_BUCKETS
    requires Listed(list, n - MAX_PACKET_AGE, frontier - 1) && Ascending(ks) && !Fits(list, n - frontier - 1)
    ensures var count := n - frontier - 1;
            var (kept, ks') := Evicted(list, ks, count, 0);
            WirePair(MakeRoom(list, ks, Gap(frontier + 1, count, wait, now)))
            == (if |kept| + count > MAX_NACK_PACKETS then []
                else AddRange(WireAll(kept), Low(frontier + 1), count, wait, now), LowAll(ks'))
  {
    var count := n - frontier - 1;
    EvictedIsFirstFit(list, ks, count, 0);
    FirstFitFits(list, ks, count);
    if FirstFit(list, ks, count) < |ks| {
      RoomFound(list, ks, frontier, n, wait, now);
    }
  }

  lemma RoomFound(list: seq<Entry>, ks: seq<int>, frontier: int, n: int, wait: nat, now: int)
    requires n > frontier && wait <= NUM_REORDERING_BUCKETS
    requires Listed(list, n - MAX_PACKET_AGE, frontier - 1) && !Fits(list, n - frontier - 1)
    requires FirstFit(list, ks, n - frontier - 1) < |ks|
    ensures var count := n - frontier - 1;
            var i := FirstFit(list, ks, count);
            WireAll(MakeRoom(list, ks, Gap(frontier + 1, count, wait, now)).0)
            == AddRange(WireAll(Since(list, ks[i])), Low(frontier + 1), count, wait, now)
  {
    var i := FirstFit(list, ks, n - frontier - 1);
    SinceListed(list, ks[i], n - MAX_PACKET_AGE, frontier - 1);
    FirstFitFits(list, ks, n - frontier - 1);
    RoomyRefines(Since(list, ks[i]), frontier, n, wait, now);
  }

  lemma RoomyRefines(list: seq<Entry>, frontier: int, n: int, wait: nat, now: int)
    requires n > frontier && wait <= NUM_REORDERING_BUCKETS
    requires Listed(list, n - MAX_PACKET_AGE, frontier - 1) && Fits(list, n - frontier - 1)
    ensures AddRange(WireAll(list), Low(frontier + 1), n - frontier - 1, wait, now)
            == WireAll(list + Gap(frontier + 1, n - frontier - 1, wait, now))
  {
    ListedWiden(list, n - MAX_PACKET_AGE, frontier - 1, frontier - 19999, frontier - 1);
    AddRangeRefines(list, frontier + 1, n - frontier - 1, wait, now);
  }

  lemma AgedKeysRefine(ks: seq<int>, n: int)
    requires Near(ks, n - MAX_PACKET_AGE)
    ensures RecentKeys(LowAll(ks), Low(n), false) == LowAll(KeysSince(ks, n - MAX_PACKET_AGE))
  {
    LowOfSum(n, -MAX_PACKET_AGE);
    KeysSinceRefines(ks, n - MAX_PACKET_AGE);
  }

  lemma RecentKeyFramesRefine(ks: seq<int>, frontier: int, n: int, isKeyFrame: bool)
    requires KeysListed(ks, frontier - MAX_PACKET_AGE, frontier) && n > frontier
    requires n - frontier < if isKeyFrame then 0x8000 - MAX_PACKET_AGE else 0x8000
    ensures RecentKeys(LowAll(ks), Low(n), isKeyFrame)
            == LowAll(KeysSince(if isKeyFrame then ks + [n] else ks, n - MAX_PACKET_AGE))
  {
    KeyAppended(ks, frontier, n);
    var low := frontier - MAX_PACKET_AGE;
    if isKeyFrame {
      NearAbove(ks, low, frontier, n);
      NearAbove(ks + [n], low, n, n - MAX_PACKET_AGE);
      InsertNewest(ks, n, low);
      AgedKeysRefine(ks + [n], n);
    } else {
      NearAbove(ks, low, frontier, n - MAX_PACKET_AGE);
      AgedKeysRefine(ks, n);
    }
  }

  lemma EnteredRefines(r: Ideal, n: int, isKeyFrame: bool, now: int)
    requires n > r.frontier && n - r.frontier < 0x8000
    requires Listed(r.list, r.frontier - MAX_PACKET_AGE, r.frontier - 1)
    requires KeysListed(RecentKeyFrames(r, n, isKeyFrame), n - MAX_PACKET_AGE, n)
    ensures AddPackets(WireAll(r.list), LowAll(RecentKeyFrames(r, n, isKeyFrame)), Low(r.frontier + 1), Low(n),
                       WaitPackets(r.samples), now)
            == WirePair(Entered(r, n, isKeyFrame, now))
  {
    AddPacketsRefines(r.list, RecentKeyFrames(r, n, isKeyFrame), r.frontier, n, WaitPackets(r.samples), now);
  }

  lemma AdvanceIs(st: Nack, r: Ideal, n: int, isKeyFrame: bool, now: int)
    requires Refines(st, r) && n > r.frontier
    requires RecentKeys(st.keyFrames, Low(n), isKeyFrame) == LowAll(RecentKeyFrames(r, n, isKeyFrame))
    requires AddPackets(st.list, LowAll(RecentKeyFrames(r, n, isKeyFrame)), Low(r.frontier + 1), Low(n),
                        WaitPackets(r.samples), now)
             == WirePair(Entered(r, n, isKeyFrame, now))
    ensures Refines(Advance(st, Low(n), isKeyFrame, now), IdealNew(r, n, isKeyFrame, now))
  {
    LowOfSum(r.frontier, 1);
  }

  lemma AdvanceRefines(st: Nack, r: Ideal, n: int, isKeyFrame: bool, now: int)
    requires Refines(st, r) && Shaped(r) && n > r.frontier
    requires n - r.frontier < if isKeyFrame then 0x8000 - MAX_PACKET_AGE else 0x8000
    ensures Refines(Advance(st, Low(n), isKeyFrame, now), IdealNew(r, n, isKeyFrame, now))
  {
    RecentKeyFramesRefine(r.keyFrames, r.frontier, n, isKeyFrame);
    RecentKeyFramesShape(r, n, isKeyFrame);
    EnteredRefines(r, n, isKeyFrame, now);
    AdvanceIs(st, r, n, isKeyFrame, now);
  }

  lemma DueRefines(e: Entry, filter: NackFilter, frontier: int, now: int, rtt: int)
    requires -0x8000 < frontier - e.sendAt < 0x8000
    ensures Due(Wire(e), filter, Low(frontier), now, rtt) <==> IdealDue(e, filter, frontier, now, rtt)
  {
    AheadIsOrder(frontier, e.sendAt);
  }

  lemma WireConcat(a: seq<Entry>, b: seq<Entry>)
    ensures WireAll(a + b) == WireAll(a) + WireAll(b)
  {
  }

  lemma LowConcat(a: seq<Sent>, b: seq<Sent>)
    ensures LowNumbers(a + b) == LowNumbers(a) + LowNumbers(b)
  {
  }

  lemma OneRefines(e: Entry, filter: NackFilter, frontier: int, now: int, rtt: int)
    requires -0x8000 < frontier - e.sendAt < 0x8000
    ensures var due := IdealDue(e, filter, frontier, now, rtt);
            Due(Wire(e), filter, Low(frontier), now, rtt) == due &&
            WireAll(IdealMarked(e, now)) == Marked(Wire(e), now) &&
            WireAll([e]) == [Wire(e)] && LowNumbers([Sent(e.n, now, rtt)]) == [Low(e.n)]
  {
    DueRefines(e, filter, frontier, now, rtt);
  }

  lemma {:induction false} BatchRefines(list: seq<Entry>, filter: NackFilter, frontier: int, now: int, rtt: int)
    requires forall i :: 0 <= i < |list| ==> -0x8000 < frontier - list[i].sendAt < 0x8000
    ensures BatchOf(WireAll(list), filter, Low(frontier), now, rtt)
            == LowNumbers(Sents(list, filter, frontier, now, rtt))
    ensures AfterBatch(WireAll(list), filter, Low(frontier), now, rtt)
            == WireAll(Remaining(list, filter, frontier, now, rtt))
  {
    if list != [] {
      var k := |list| - 1;
      var e := list[k];
      var due := IdealDue(e, filter, frontier, now, rtt);
      OneRefines(e, filter, frontier, now, rtt);
      BatchRefines(list[..k], filter, frontier, now, rtt);
      assert WireAll(list)[..k] == WireAll(list[..k]) && WireAll(list)[k] == Wire(e);
      WireConcat(Remaining(list[..k], filter, frontier, now, rtt), if due then IdealMarked(e, now) else [e]);
      LowConcat(Sents(list[..k], filter, frontier, now, rtt), if due then [Sent(e.n, now, rtt)] else []);
    }
  }

  lemma SendAtNear(r: Ideal)
    requires Shaped(r)
    ensures forall i :: 0 <= i < |r.list| ==> -0x8000 < r.frontier - r.list[i].sendAt < 0x8000
  {
    forall i | 0 <= i < |r.list| ensures -0x8000 < r.frontier - r.list[i].sendAt < 0x8000 {
      assert r.frontier - MAX_PACKET_AGE <= At(Numbers(r.list), i) < r.frontier && Brief(r.list, i);
    }
  }

  lemma {:induction false} IndexFromRefines(list: seq<Entry>, frontier: int, n: int, i: nat)
    requires Listed(list, frontier - MAX_PACKET_AGE, frontier - 1) && frontier - 0x8000 <= n < frontier
    requires i <= |list| && forall j: nat :: j < i ==> At(Numbers(list), j) != n
    ensures var c := IndexFrom(WireAll(list), Low(n), i);
            (forall j: nat :: j < c ==> At(Numbers(list), j) != n) && (c < |list| ==> list[c].n == n)
    decreases |list| - i
  {
    if i < |list| {
      assert frontier - MAX_PACKET_AGE <= At(Numbers(list), i) < frontier;
      if Low(list[i].n) == Low(n) {
        LowInjective(list[i].n, n);
      } else {
        IndexFromRefines(list, frontier, n, i + 1);
      }
    }
  }

  lemma IndexOfRefines(list: seq<Entry>, frontier: int, n: int)
    requires Listed(list, frontier - MAX_PACKET_AGE, frontier - 1)
    requires frontier - 0x8000 <= n < frontier
    ensures var i := CountBelow(Numbers(list), n);
            IndexOf(WireAll(list), Low(n)) == if i < |list| && list[i].n == n then i else |list|
  {
    var i, j := CountBelow(Numbers(list), n), IndexOf(WireAll(list), Low(n));
    IndexFromRefines(list, frontier, n, 0);
    if j < |list| {
      FoundAt(list, n, j);
    } else if i < |list| {
      assert At(Numbers(list), i) != n;
    }
  }

  lemma OldRefines(st: Nack, r: Ideal, s: Seq16, isRetransmitted: bool)
    requires Refines(st, r) && Shaped(r) && r.started && Nearest(r.frontier, s) < r.frontier
    ensures Refines(OldPacket(st, s, isRetransmitted).state,
                    IdealOld(r, Nearest(r.frontier, s), isRetransmitted))
  {
    var n := Nearest(r.frontier, s);
    IndexOfRefines(r.list, r.frontier, n);
    DistanceBehind(r.frontier, n);
    var i := CountBelow(Numbers(r.list), n);
    if i < |r.list| && r.list[i].n == n {
      DropOneRefines(r.list, i);
    }
    assert IdealOld(r, n, isRetransmitted).samples == OldPacket(st, s, isRetransmitted).state.samples;
  }

  lemma DropOneRefines(list: seq<Entry>, i: nat)
    requires i < |list|
    ensures WireAll(list)[..i] + WireAll(list)[i + 1..] == WireAll(list[..i] + list[i + 1..])
  {
    WireConcat(list[..i], list[i + 1..]);
  }

  lemma FirstRefines(st: Nack, r: Ideal, s: Seq16, isKeyFrame: bool)
    requires Refines(st, r) && Shaped(r) && !r.started
    ensures Refines(OnPacket(st, s, isKeyFrame, false, 0).state, IdealFirst(r, s, isKeyFrame))
  {
    if isKeyFrame {
      InsertNewest([], s, s);
    }
  }

  lemma StepRefines(st: Nack, r: Ideal, e: Event)
    requires Refines(st, r) && Shaped(r) && Sane(r, e)
    ensures Refines(Step(st, e), IdealStep(r, e))
  {
    match e
    case Packet(s, key, retransmitted, now) =>
      var n := ReceivedAs(r, s);
      if !r.started {
        FirstRefines(st, r, s, key);
      } else if n < r.frontier {
        AheadIsTotal(s, Low(r.frontier));
        OldRefines(st, r, s, retransmitted);
      } else if n > r.frontier {
        AheadIsTotal(s, Low(r.frontier));
        AdvanceRefines(st, r, n, key, now);
        NewShaped(r, n, key, now);
        var r1 := IdealNew(r, n, key, now);
        SendAtNear(r1);
        BatchRefines(r1.list, SeqNumOnly, n, now, r.rtt);
      }
    case Tick(now) =>
      SendAtNear(r);
      BatchRefines(r.list, TimeOnly, r.frontier, now, r.rtt);
    case Rtt(_) =>
  }

  /** On every sane history the 16-bit bookkeeping is the wire image of the unbounded one. */
  lemma {:induction false} NackRefines(es: seq<Event>)
    requires SaneRun(es)
    ensures Refines(Run(es), IdealRun(es)) && Shaped(IdealRun(es))
  {
    if es != [] {
      var before := es[..|es| - 1];
      NackRefines(before);
      StepRefines(Run(before), IdealRun(before), es[|es| - 1]);
      StepShaped(IdealRun(before), es[|es| - 1]);
    }
  }
}
