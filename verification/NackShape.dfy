/** The missing list and the anchors stay sorted, recent and short at every step. */
module NackShape {
  import opened N = NackRequester
  import opened NackIdeal

  // ----- cutting sorted sequences

  lemma {:induction false} CountFromSplits(ks: seq<int>, x: int, i: nat)
    requires i <= |ks| && forall j: nat :: j < i ==> At(ks, j) < x
    ensures var c := CountFrom(ks, x, i);
            (forall j: nat :: j < c ==> At(ks, j) < x) && (c < |ks| ==> At(ks, c) >= x)
    decreases |ks| - i
  {
    if i < |ks| && At(ks, i) < x {
      CountFromSplits(ks, x, i + 1);
    }
  }

  lemma CountBelowSplits(ks: seq<int>, x: int)
    ensures var c := CountBelow(ks, x);
            (forall j: nat :: j < c ==> At(ks, j) < x) && (c < |ks| ==> At(ks, c) >= x)
  {
    CountFromSplits(ks, x, 0);
  }

  /** In an ascending sequence the cut is the only place between what is below and what is not. */
  lemma CutIs(ks: seq<int>, x: int, i: nat)
    requires Ascending(ks) && i <= |ks| && (i > 0 ==> At(ks, i - 1) < x) && (i < |ks| ==> At(ks, i) >= x)
    ensures CountBelow(ks, x) == i
  {
    CountBelowSplits(ks, x);
    CutsInOrder(ks, CountBelow(ks, x), i, x);
  }

  lemma CutsInOrder(ks: seq<int>, c: nat, i: nat, x: int)
    requires Ascending(ks) && c <= |ks| && i <= |ks| && (c < |ks| ==> At(ks, c) >= x)
    requires i > 0 ==> At(ks, i - 1) < x
    ensures i <= c
  {
    assert forall j: nat :: j < i - 1 && i <= |ks| ==> At(ks, j) < At(ks, i - 1);
  }

  lemma Piece(ks: seq<int>, a: nat, b: nat)
    requires a <= b <= |ks|
    ensures Ascending(ks) ==> Ascending(ks[a..b])
    ensures forall i: nat :: i < b - a ==> At(ks[a..b], i) == At(ks, a + i)
  {
    forall i: nat | i < b - a ensures At(ks[a..b], i) == At(ks, a + i) {}
  }

  lemma NumbersPiece(list: seq<Entry>, a: nat, b: nat)
    requires a <= b <= |list|
    ensures Numbers(list[a..b]) == Numbers(list)[a..b]
  {
  }

  lemma NumbersJoin(l1: seq<Entry>, l2: seq<Entry>)
    ensures Numbers(l1 + l2) == Numbers(l1) + Numbers(l2)
  {
  }

  lemma KeysPiece(ks: seq<int>, a: nat, b: nat, low: int, high: int)
    requires KeysListed(ks, low, high) && a <= b <= |ks|
    ensures KeysListed(ks[a..b], low, high)
    ensures a < b ==> KeysListed(ks[a..b], At(ks, a), At(ks, b - 1))
  {
    Piece(ks, a, b);
  }

  lemma KeysJoin(ks1: seq<int>, ks2: seq<int>, low: int, mid: int, high: int)
    requires KeysListed(ks1, low, mid) && KeysListed(ks2, mid + 1, high) && low <= mid + 1 && mid <= high
    ensures KeysListed(ks1 + ks2, low, high)
  {
    forall i: nat | i < |ks1 + ks2|
      ensures At(ks1 + ks2, i) == if i < |ks1| then At(ks1, i) else At(ks2, i - |ks1|)
    {
    }
  }

  lemma BriefPiece(list: seq<Entry>, a: nat, b: nat)
    requires WaitsBriefly(list) && a <= b <= |list|
    ensures WaitsBriefly(list[a..b])
  {
    assert forall i: nat :: i < b - a ==> Brief(list, a + i) ==> Brief(list[a..b], i);
  }

  lemma BriefJoin(l1: seq<Entry>, l2: seq<Entry>)
    requires WaitsBriefly(l1) && WaitsBriefly(l2)
    ensures WaitsBriefly(l1 + l2)
  {
    forall i: nat | i < |l1 + l2| ensures Brief(l1 + l2, i) {
      if i < |l1| { assert Brief(l1, i); } else { assert Brief(l2, i - |l1|); }
    }
  }

  lemma ListedJoin(l1: seq<Entry>, l2: seq<Entry>, low: int, mid: int, high: int)
    requires Listed(l1, low, mid) && Listed(l2, mid + 1, high) && low <= mid + 1 && mid <= high
    ensures Listed(l1 + l2, low, high)
  {
    KeysJoin(Numbers(l1), Numbers(l2), low, mid, high);
    NumbersJoin(l1, l2);
    BriefJoin(l1, l2);
  }

  lemma ListedWiden(list: seq<Entry>, low: int, high: int, low': int, high': int)
    requires Listed(list, low, high) && low' <= low && high <= high'
    ensures Listed(list, low', high')
  {
  }

  lemma GapIsListed(start: int, count: nat, wait: nat, now: int)
    requires wait <= NUM_REORDERING_BUCKETS
    ensures Listed(Gap(start, count, wait, now), start, start + count - 1)
  {
    var gap := Gap(start, count, wait, now);
    assert forall i: nat :: i < count ==> At(Numbers(gap), i) == start + i;
    assert forall i: nat :: i < count ==> Brief(gap, i);
  }

  /** Dropping what is older than `x` leaves a sorted suffix. */
  lemma SinceListed(list: seq<Entry>, x: int, low: int, high: int)
    requires Listed(list, low, high)
    ensures Listed(Since(list, x), x, high) && Listed(Since(list, x), low, high)
    ensures Numbers(Since(list, x)) == KeysSince(Numbers(list), x) && |Since(list, x)| <= |list|
  {
    var ks := Numbers(list);
    var c := CountBelow(ks, x);
    NumbersPiece(list, c, |list|);
    KeysSinceListed(ks, x, low, high);
    BriefPiece(list, c, |list|);
    assert list[c..|list|] == Since(list, x) && ks[c..|list|] == KeysSince(ks, x);
  }

  lemma KeysSinceListed(ks: seq<int>, x: int, low: int, high: int)
    requires KeysListed(ks, low, high)
    ensures KeysListed(KeysSince(ks, x), x, high) && KeysListed(KeysSince(ks, x), low, high)
  {
    var c := CountBelow(ks, x);
    CountBelowSplits(ks, x);
    KeysPiece(ks, c, |ks|, low, high);
    assert ks[c..|ks|] == ks[c..];
  }

  /** Cutting at `x` leaves the cut at a later `y` where it was. */
  lemma CutAgain(ks: seq<int>, x: int, y: int)
    requires Ascending(ks) && x <= y
    ensures var a, b := CountBelow(ks, x), CountBelow(ks, y);
            a <= b && CountBelow(ks[a..|ks|], y) == b - a
  {
    var a, b := CountBelow(ks, x), CountBelow(ks, y);
    CountBelowSplits(ks, x);
    CountBelowSplits(ks, y);
    assert a > 0 ==> At(ks, a - 1) < x;
    CutsInOrder(ks, b, a, x);
    Piece(ks, a, |ks|);
    CutIs(ks[a..|ks|], y, b - a);
  }

  lemma SinceTwice(list: seq<Entry>, x: int, y: int)
    requires Ascending(Numbers(list)) && x <= y
    ensures Since(Since(list, x), y) == Since(list, y)
  {
    var a, b := CountBelow(Numbers(list), x), CountBelow(Numbers(list), y);
    CutAgain(Numbers(list), x, y);
    NumbersSince(list, x);
    DropTwice(list, a, b);
  }

  lemma NumbersSince(list: seq<Entry>, x: int)
    ensures var ks := Numbers(list); Numbers(Since(list, x)) == ks[CountBelow(ks, x)..|ks|]
  {
  }

  lemma DropTwice(list: seq<Entry>, a: nat, b: nat)
    requires a <= b <= |list|
    ensures list[a..][b - a..] == list[b..]
  {
  }

  /** An entry lies where its number cuts the list. */
  lemma FoundAt(list: seq<Entry>, n: int, j: nat)
    requires Ascending(Numbers(list)) && j < |list| && list[j].n == n
    ensures CountBelow(Numbers(list), n) == j
  {
    var ks := Numbers(list);
    assert At(ks, j) == n;
    assert j > 0 ==> At(ks, j - 1) < At(ks, j);
    CutIs(ks, n, j);
  }

  // ----- making room

  lemma AppendGap(list: seq<Entry>, low: int, frontier: int, count: nat, wait: nat, now: int)
    requires Listed(list, low, frontier - 1) && wait <= NUM_REORDERING_BUCKETS && low <= frontier + 1
    ensures Listed(list + Gap(frontier + 1, count, wait, now), low, frontier + count)
  {
    GapIsListed(frontier + 1, count, wait, now);
    ListedWiden(list, low, frontier - 1, low, frontier);
    ListedJoin(list, Gap(frontier + 1, count, wait, now), low, frontier, frontier + count);
  }

  lemma {:induction false} FirstFitFromFits(list: seq<Entry>, ks: seq<int>, incoming: nat, i: nat)
    requires i <= |ks|
    ensures var c := FirstFitFrom(list, ks, incoming, i);
            c < |ks| ==> Fits(Since(list, ks[c]), incoming)
    decreases |ks| - i
  {
    if i < |ks| && !Fits(Since(list, ks[i]), incoming) {
      FirstFitFromFits(list, ks, incoming, i + 1);
    }
  }

  lemma FirstFitFits(list: seq<Entry>, ks: seq<int>, incoming: nat)
    ensures var c := FirstFit(list, ks, incoming);
            c < |ks| ==> Fits(Since(list, ks[c]), incoming)
  {
    FirstFitFromFits(list, ks, incoming, 0);
  }

  lemma RoomListed(list: seq<Entry>, ks: seq<int>, frontier: int, n: int, wait: nat, now: int)
    requires n > frontier && Listed(list, n - MAX_PACKET_AGE, frontier - 1)
    requires wait <= NUM_REORDERING_BUCKETS
    ensures var l := MakeRoom(list, ks, Gap(frontier + 1, n - frontier - 1, wait, now)).0;
            Listed(l, n - MAX_PACKET_AGE, n - 1) && |l| <= MAX_NACK_PACKETS
  {
    var low, count := n - MAX_PACKET_AGE, n - frontier - 1;
    var i := FirstFit(list, ks, count);
    if low > frontier + 1 {
      GapTooLong(list, ks, frontier, n, wait, now);
    } else if Fits(list, count) {
      AppendGap(list, low, frontier, count, wait, now);
    } else if i < |ks| {
      SinceListed(list, ks[i], low, frontier - 1);
      FirstFitFits(list, ks, count);
      AppendGap(Since(list, ks[i]), low, frontier, count, wait, now);
    }
  }

  /** A gap longer than the age limit is longer than the list may be. */
  lemma GapTooLong(list: seq<Entry>, ks: seq<int>, frontier: int, n: int, wait: nat, now: int)
    requires n - MAX_PACKET_AGE > frontier + 1
    ensures MakeRoom(list, ks, Gap(frontier + 1, n - frontier - 1, wait, now)).0 == []
  {
    FirstFitFits(list, ks, n - frontier - 1);
  }

  lemma RoomKeys(list: seq<Entry>, ks: seq<int>, gap: seq<Entry>, low: int, high: int)
    requires KeysListed(ks, low, high)
    ensures KeysListed(MakeRoom(list, ks, gap).1, low, high)
  {
    var i := FirstFit(list, ks, |gap|);
    KeysPiece(ks, i, |ks|, low, high);
    assert ks[i..|ks|] == ks[i..];
  }

  lemma KeyAppended(ks: seq<int>, frontier: int, n: int)
    requires KeysListed(ks, frontier - MAX_PACKET_AGE, frontier) && n > frontier
    ensures KeysListed(ks + [n], frontier - MAX_PACKET_AGE, n) && KeysListed(ks, frontier - MAX_PACKET_AGE, n)
  {
    assert KeysListed([n], n, n);
    assert KeysListed(ks, frontier - MAX_PACKET_AGE, n - 1);
    KeysJoin(ks, [n], frontier - MAX_PACKET_AGE, n - 1, n);
  }

  lemma RecentKeyFramesShape(r: Ideal, n: int, isKeyFrame: bool)
    requires Shaped(r) && n > r.frontier
    ensures KeysListed(RecentKeyFrames(r, n, isKeyFrame), n - MAX_PACKET_AGE, n)
  {
    KeyAppended(r.keyFrames, r.frontier, n);
    KeysSinceListed(if isKeyFrame then r.keyFrames + [n] else r.keyFrames, n - MAX_PACKET_AGE,
                    r.frontier - MAX_PACKET_AGE, n);
  }

  lemma RecentListed(r: Ideal, n: int)
    requires Listed(r.list, r.frontier - MAX_PACKET_AGE, r.frontier - 1)
    ensures Listed(RecentList(r, n), n - MAX_PACKET_AGE, r.frontier - 1)
  {
    SinceListed(r.list, n - MAX_PACKET_AGE, r.frontier - MAX_PACKET_AGE, r.frontier - 1);
  }

  lemma EnteredListed(r: Ideal, n: int, isKeyFrame: bool, now: int)
    requires n > r.frontier && Listed(RecentList(r, n), n - MAX_PACKET_AGE, r.frontier - 1)
    ensures var l := Entered(r, n, isKeyFrame, now).0;
            Listed(l, n - MAX_PACKET_AGE, n - 1) && |l| <= MAX_NACK_PACKETS
  {
    RoomListed(RecentList(r, n), RecentKeyFrames(r, n, isKeyFrame), r.frontier, n, WaitPackets(r.samples), now);
  }

  lemma EnteredKeys(r: Ideal, n: int, isKeyFrame: bool, now: int)
    requires Shaped(r) && n > r.frontier
    ensures KeysListed(Entered(r, n, isKeyFrame, now).1, n - MAX_PACKET_AGE, n)
  {
    RecentKeyFramesShape(r, n, isKeyFrame);
    RoomKeys(RecentList(r, n), RecentKeyFrames(r, n, isKeyFrame), NewGap(r, n, now), n - MAX_PACKET_AGE, n);
  }

  // ----- steps keep the shape

  lemma NewShaped(r: Ideal, n: int, isKeyFrame: bool, now: int)
    requires Shaped(r) && r.started && n > r.frontier
    ensures Shaped(IdealNew(r, n, isKeyFrame, now))
  {
    RecentListed(r, n);
    EnteredListed(r, n, isKeyFrame, now);
    EnteredKeys(r, n, isKeyFrame, now);
  }

  lemma DropOneListed(list: seq<Entry>, i: nat, low: int, high: int)
    requires Listed(list, low, high) && i < |list|
    ensures Listed(list[..i] + list[i + 1..], low, high)
  {
    var ks, n := Numbers(list), list[i].n;
    assert At(ks, i) == n;
    NumbersPiece(list, 0, i);
    NumbersPiece(list, i + 1, |list|);
    KeysPiece(ks, 0, i, low, high);
    KeysPiece(ks, i + 1, |ks|, low, high);
    BriefPiece(list, 0, i);
    BriefPiece(list, i + 1, |list|);
    assert i > 0 ==> At(ks, i - 1) < At(ks, i);
    assert i + 1 < |ks| ==> At(ks, i) < At(ks, i + 1);
    ListedJoin(list[0..i], list[i + 1..|list|], low, n - 1, high);
    assert list[0..i] == list[..i] && list[i + 1..|list|] == list[i + 1..];
  }

  lemma WithoutListed(list: seq<Entry>, n: int, low: int, high: int)
    requires Listed(list, low, high)
    ensures Listed(Without(list, n), low, high) && |Without(list, n)| <= |list|
  {
    var i := CountBelow(Numbers(list), n);
    if i < |list| && list[i].n == n {
      DropOneListed(list, i, low, high);
    }
  }

  lemma OldShaped(r: Ideal, n: int, isRetransmitted: bool)
    requires Shaped(r) && n < r.frontier && r.started
    ensures Shaped(IdealOld(r, n, isRetransmitted))
  {
    WithoutListed(r.list, n, r.frontier - MAX_PACKET_AGE, r.frontier - 1);
  }

  /** What a batch leaves lies within the same bounds. */
  lemma {:induction false} RemainingListed(list: seq<Entry>, filter: NackFilter, frontier: int, now: int, rtt: int,
                                           low: int, high: int)
    requires Listed(list, low, high)
    ensures var left := Remaining(list, filter, frontier, now, rtt);
            |left| <= |list| && Listed(left, low, high)
    decreases |list|
  {
    if list != [] {
      var k := |list| - 1;
      var init, e := list[..k], list[k];
      LastListed(list, low, high);
      RemainingListed(init, filter, frontier, now, rtt, low, e.n - 1);
      var left := Remaining(init, filter, frontier, now, rtt);
      if IdealDue(e, filter, frontier, now, rtt) {
        MarkedListed(e, now);
        ListedWiden(IdealMarked(e, now), e.n, e.n, e.n, high);
        ListedJoin(left, IdealMarked(e, now), low, e.n - 1, high);
      } else {
        ListedWiden([e], e.n, e.n, e.n, high);
        ListedJoin(left, [e], low, e.n - 1, high);
      }
    }
  }

  lemma LastListed(list: seq<Entry>, low: int, high: int)
    requires Listed(list, low, high) && list != []
    ensures var e := list[|list| - 1];
            Listed(list[..|list| - 1], low, e.n - 1) && Listed([e], e.n, e.n) && low <= e.n <= high
  {
    var k, ks := |list| - 1, Numbers(list);
    NumbersPiece(list, 0, k);
    KeysPiece(ks, 0, k, low, high);
    BriefPiece(list, 0, k);
    BriefPiece(list, k, |list|);
    assert list[0..k] == list[..k] && list[k..|list|] == [list[k]];
    assert At(ks, k) == list[k].n;
    assert forall i: nat :: i < k ==> At(ks[0..k], i) == At(ks, i) < At(ks, k);
  }

  lemma MarkedListed(e: Entry, now: int)
    requires Listed([e], e.n, e.n)
    ensures Listed(IdealMarked(e, now), e.n, e.n)
  {
    assert Brief([e], 0);
    assert Brief([e.(retries := e.retries + 1, sendAtTime := now)], 0);
  }

  lemma BatchShaped(r: Ideal, filter: NackFilter, now: int)
    requires Shaped(r)
    ensures Shaped(IdealBatch(r, filter, now))
  {
    RemainingListed(r.list, filter, r.frontier, now, r.rtt, r.frontier - MAX_PACKET_AGE, r.frontier - 1);
  }

  lemma StepShaped(r: Ideal, e: Event)
    requires Shaped(r)
    ensures Shaped(IdealStep(r, e))
  {
    match e
    case Packet(s, key, retransmitted, now) =>
      var n := ReceivedAs(r, s);
      if r.started && n < r.frontier {
        OldShaped(r, n, retransmitted);
      } else if r.started && n > r.frontier {
        NewShaped(r, n, key, now);
        BatchShaped(IdealNew(r, n, key, now), SeqNumOnly, now);
      }
    case Tick(now) => BatchShaped(r, TimeOnly, now);
    case Rtt(_) =>
  }
}
