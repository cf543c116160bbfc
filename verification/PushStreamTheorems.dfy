/** What holds of the forwarder in every reachable state, and where the obvious claims stop. */
module PushStreamTheorems {
  import opened Options
  import opened SeqNum
  import opened PushStream
  import opened PushStreamRefinement

  // ----- no packet is left waiting

  ghost predicate NothingWaits(s: Stream) {
    if s.Started() then Find(s.cache, Low(s.videoSeq + 1)).None?
    else s.cache == EmptySlots(2048) && s.sent == []
  }

  lemma FirstPacketAlone(c: Cache, p: Packet)
    requires c == EmptySlots(2048)
    ensures Find(Store(c, p), Low(p.seqNum + 1)).None?
  {
    SlotOf(p.seqNum + 1);
  }

  lemma StoreElsewhere(c: Cache, p: Packet, s: Seq16)
    requires Find(c, s).None? && p.seqNum != s
    ensures Find(Store(c, p), s).None?
  {
  }

  lemma NothingWaitsStep(s: Stream, e: Event)
    requires NothingWaits(s)
    ensures NothingWaits(Step(s, e))
  {
    match e
    case Rtp(p) =>
      var c := Store(s.cache, p);
      if !s.Started() {
        FirstPacketAlone(s.cache, p);
      } else if p.seqNum == Low(s.videoSeq + 1) {
        MissEndsRun(c, p.seqNum);
      } else {
        StoreElsewhere(s.cache, p, Low(s.videoSeq + 1));
      }
    case KeyFrame(start) =>
      if AheadOf(start, s.videoSeq) {
        MissEndsRun(s.cache, start);
        if !s.Started() {
          MissAt(s.cache, start);
          var first := Low(s.videoSeq + 1);
          assert Cleared(s.cache, first, GapLength(first, Low(start - 1))) == EmptySlots(2048);
        }
      }
  }

  lemma MissEndsRun(c: Cache, s: Seq16)
    ensures Find(c, Low(Low(s + |Released(c, s)| - 1) + 1)).None?
  {
    RunsEndOnMiss(c, s);
    LowOfSum(s + |Released(c, s)| - 1, 1);
  }

  /** In every reachable state the next number to forward is not in the cache. */
  lemma {:induction false} NoPacketWaits(es: seq<Event>)
    ensures NothingWaits(Run(es))
  {
    if es != [] {
      NoPacketWaits(es[..|es| - 1]);
      NothingWaitsStep(Run(es[..|es| - 1]), es[|es| - 1]);
    }
  }

  /** Event `i` is the first packet of the history. */
  predicate FirstPacketAt(es: seq<Event>, i: nat) {
    i < |es| && es[i].Rtp? && forall j :: 0 <= j < i ==> es[j].KeyFrame?
  }

  predicate NoPackets(es: seq<Event>) {
    forall j :: 0 <= j < |es| ==> es[j].KeyFrame?
  }

  /** The forwarder starts with the first packet, whatever key frames come before, and remembers when that
      arrived. */
  lemma {:induction false} StartsWithFirstPacket(es: seq<Event>, i: nat)
    ensures NoPackets(es) ==> Run(es).firstSeqTime == -1
    ensures FirstPacketAt(es, i) ==> Run(es).firstSeqTime == es[i].packet.ts
  {
    if es != [] {
      var before := es[..|es| - 1];
      assert es == before + [es[|es| - 1]];
      StartsWithFirstPacket(before, i);
    }
  }

  // ----- what goes downstream, and what a retransmission lookup can return

  /** `p` arrived as event `i` and was taken for extended number `n`. */
  predicate ArrivedAs(es: seq<Event>, i: nat, n: int, p: Packet) {
    i < |es| && es[i] == Rtp(p) && n == ReceivedAs(IdealRun(es[..i]), p)
  }

  /** `p` arrived at some point of the history and was then taken for number `n`. */
  ghost predicate Arrived(es: seq<Event>, n: int, p: Packet) {
    exists i: nat :: ArrivedAs(es, i, n, p)
  }

  lemma HeardStep(r: Ideal, e: Event)
    ensures IdealStep(r, e).heard ==
            r.heard + if e.Rtp? then {Numbered(ReceivedAs(r, e.packet), e.packet)} else {}
  {
  }

  lemma ArrivedStep(before: seq<Event>, e: Event, n: int, p: Packet)
    ensures Arrived(before + [e], n, p) <==>
            Arrived(before, n, p) || (e == Rtp(p) && n == ReceivedAs(IdealRun(before), p))
  {
    var es, k := before + [e], |before|;
    assert es[..k] == before;
    forall i: nat | i < k ensures ArrivedAs(es, i, n, p) <==> ArrivedAs(before, i, n, p) {
      assert before[..i] == es[..i];
    }
    if Arrived(before, n, p) {
      var i: nat :| ArrivedAs(before, i, n, p);
      assert ArrivedAs(es, i, n, p);
    }
    assert ArrivedAs(es, k, n, p) <==> e == Rtp(p) && n == ReceivedAs(IdealRun(before), p);
  }

  lemma {:induction false} HeardIsArrived(es: seq<Event>, x: Numbered)
    ensures x in IdealRun(es).heard <==> Arrived(es, x.n, x.packet)
  {
    if es != [] {
      var before, e := es[..|es| - 1], es[|es| - 1];
      assert es == before + [e];
      HeardIsArrived(before, x);
      HeardStep(IdealRun(before), e);
      ArrivedStep(before, e, x.n, x.packet);
    }
  }

  /** Event `i` is a key frame that restarted the forwarder at number `n`. */
  predicate RestartedBy(es: seq<Event>, i: nat, n: int) {
    i < |es| && Restarts(IdealRun(es[..i]), es[i], n)
  }

  predicate Restarts(r: Ideal, e: Event, n: int) {
    e.KeyFrame? && n == Nearest(r.frontier, e.start) && n > r.frontier
  }

  ghost predicate Restarted(es: seq<Event>, n: int) {
    exists i: nat :: RestartedBy(es, i, n)
  }

  lemma RestartedLast(before: seq<Event>, e: Event, n: int)
    ensures Restarted(before + [e], n) <==> Restarted(before, n) || Restarts(IdealRun(before), e, n)
  {
    var es, k := before + [e], |before|;
    assert es[..k] == before;
    forall i: nat | i < k ensures RestartedBy(es, i, n) <==> RestartedBy(before, i, n) {
      assert before[..i] == es[..i];
    }
    if Restarted(before, n) {
      var i: nat :| RestartedBy(before, i, n);
      assert RestartedBy(es, i, n);
    }
    assert RestartedBy(es, k, n) <==> Restarts(IdealRun(before), e, n);
  }

  lemma RestartStep(r: Ideal, e: Event, n: int)
    ensures n in IdealStep(r, e).restarts <==> n in r.restarts || Restarts(r, e, n)
  {
  }

  /** The restarts the model remembers are exactly those of the history. */
  lemma {:induction false} RestartsAreRestarts(es: seq<Event>, n: int)
    ensures n in IdealRun(es).restarts <==> Restarted(es, n)
  {
    if es != [] {
      var before, e := es[..|es| - 1], es[|es| - 1];
      assert es == before + [e];
      RestartsAreRestarts(before, n);
      RestartedLast(before, e, n);
      RestartStep(IdealRun(before), e, n);
    }
  }

  /** Extended numbers `ns` explain the packets sent: every packet arrived under its number, numbers
      strictly increase, and they increase by one except where a key frame restarted. */
  ghost predicate Explains(es: seq<Event>, ns: seq<int>) {
    var sent := Run(es).sent;
    && |ns| == |sent|
    && (forall i :: 0 <= i < |ns| ==> Arrived(es, ns[i], sent[i]))
    && (forall i, j :: 0 <= i < j < |ns| ==> ns[i] < ns[j])
    && (forall i :: 0 < i < |ns| ==> ns[i] == ns[i - 1] + 1 || Restarted(es, ns[i]))
  }

  function NumbersOf(sent: seq<Numbered>): seq<int> {
    seq(|sent|, i requires 0 <= i < |sent| => sent[i].n)
  }

  lemma {:induction false} ForwardedInOrder(es: seq<Event>)
    requires RestartsNear(es)
    ensures Explains(es, NumbersOf(IdealRun(es).sent))
  {
    var r := IdealRun(es);
    var ns := NumbersOf(r.sent);
    RingRefinesMap(es);
    IdealRunInv(es);
    forall i | 0 <= i < |ns| ensures Arrived(es, ns[i], Run(es).sent[i]) {
      assert r.sent[i] in r.sent;
      HeardIsArrived(es, r.sent[i]);
    }
    forall i | 0 < i < |ns| ensures ns[i] == ns[i - 1] + 1 || Restarted(es, ns[i]) {
      assert Follows(r.sent[i - 1].n, r.sent[i].n, r.restarts);
      RestartsAreRestarts(es, ns[i]);
    }
  }

  /** A lookup for number `n` in the window never returns a leftover from 65536 earlier. */
  lemma {:induction false} NoAliasing(es: seq<Event>, n: int)
    requires RestartsNear(es) && InWindow(IdealRun(es).frontier, n)
    requires Find(Run(es).cache, Low(n)).Some?
    ensures Arrived(es, n, Find(Run(es).cache, Low(n)).value)
  {
    var r := IdealRun(es);
    RingRefinesMap(es);
    IdealRunInv(es);
    assert SameAt(Run(es).cache, r.store, n);
    HeardIsArrived(es, Numbered(n, r.store[n]));
  }

  lemma RunOne(es: seq<Event>, e: Event)
    ensures Run(es + [e]) == Step(Run(es), e)
    ensures IdealRun(es + [e]) == IdealStep(IdealRun(es), e)
  {
    assert (es + [e])[..|es|] == es;
  }

  lemma MissAt(c: Cache, s: Seq16)
    requires Find(c, s).None?
    ensures Released(c, s) == []
  {
    assert Probe(c, s, 0).None?;
    RunLengthUnique(c, s, 0, 2049);
  }

  // ----- the key-frame restart

  /** Numbers skipped by a restart at `start`. */
  function Skipped(st: Stream, start: Seq16): int {
    ForwardDiff(st.videoSeq, start) - 1
  }

  lemma SkippedIsGap(st: Stream, start: Seq16)
    requires AheadOf(start, st.videoSeq)
    ensures GapLength(Low(st.videoSeq + 1), Low(start - 1)) == Skipped(st, start)
  {
  }

  /** After a restart no skipped number can be retransmitted any more, however long the gap. */
  lemma RestartForgetsGap(st: Stream, start: Seq16, j: int)
    requires AheadOf(start, st.videoSeq) && 1 <= j <= Skipped(st, start)
    ensures Find(OnKeyFrame(st, start).cache, Low(st.videoSeq + j)).None?
  {
    SkippedIsGap(st, start);
    SlotInGap(st.videoSeq, Skipped(st, start), j);
    WipedMisses(st.cache, Low(st.videoSeq + 1), Skipped(st, start), Low(st.videoSeq + j));
  }

  lemma SlotInGap(v: int, gap: nat, j: int)
    requires 1 <= j <= gap
    ensures InGap(Low(v + j) % 2048, Low(v + 1), gap)
  {
    SlotOf(v + j);
    SlotOf(v + 1);
    InGapOfSlot(v + j, Low(v + j) % 2048, v + 1, Low(v + 1), gap);
    SkippedIsInGap(v, v + 1 + gap, v + j);
  }

  lemma WipedMisses(c: Cache, first: Seq16, count: nat, s: Seq16)
    requires InGap(s % 2048, first, count)
    ensures Find(Cleared(c, first, count), s).None?
  {
  }

  /** The `j`-th packet of the newly forwarded run survives the wiping exactly if gap + j < 2048. */
  lemma RestartKeepsRun(st: Stream, start: Seq16, j: nat)
    requires AheadOf(start, st.videoSeq) && j < |Released(st.cache, start)|
    ensures Find(OnKeyFrame(st, start).cache, Low(start + j)).Some? <==> Skipped(st, start) + j < 2048
    ensures Skipped(st, start) + j < 2048 ==>
              Find(OnKeyFrame(st, start).cache, Low(start + j)) == Some(Released(st.cache, start)[j])
  {
    var gap := Skipped(st, start);
    SkippedIsGap(st, start);
    RunsEndOnMiss(st.cache, start);
    assert Probe(st.cache, start, j) == Some(Released(st.cache, start)[j]);
    SlotOf(start + j);
    RunSlotInGap(st, start, j);
  }

  lemma RunSlotInGap(st: Stream, start: Seq16, j: nat)
    requires AheadOf(start, st.videoSeq) && j < 2048
    ensures InGap(Low(start + j) % 2048, Low(st.videoSeq + 1), Skipped(st, start))
            <==> Skipped(st, start) + j >= 2048
  {
    var v, gap := st.videoSeq, Skipped(st, start);
    LowOfForward(v, start, j);
    SlotOf(v + 1 + gap + j);
    SlotOf(v + 1);
    InGapOfSlot(Low(start + j) % 2048, v + 1 + gap + j, Low(v + 1), v + 1, gap);
    WholeGap(v + 1, gap, j);
  }

  lemma WholeGap(first: int, gap: nat, j: nat)
    requires j < 2048
    ensures InGap(first + gap + j, first, gap) <==> gap + j >= 2048
  {
    assert first + gap + j - first == gap + j;
  }

  // ----- what becomes of a packet that was cached ahead of the frontier

  predicate Pending(r: Ideal, n: int, p: Packet) {
    n > r.frontier && n in r.store && r.store[n] == p
  }

  /** The events that throw a pending number away: a packet whose number lies a multiple of 2048 from
      it, or a key frame whose gap wipes its slot without releasing it first. */
  predicate Loses(r: Ideal, e: Event, n: int) {
    match e
    case Rtp(p) => ReceivedAs(r, p) != n && ReceivedAs(r, p) % 2048 == n % 2048
    case KeyFrame(start) =>
      var m := Nearest(r.frontier, start);
      m > r.frontier && InGap(n, r.frontier + 1, m - 1 - r.frontier) && !(m <= n < m + |Batch(r.store, m)|)
  }

  lemma PendingStep(r: Ideal, e: Event, n: int, p: Packet)
    requires IdealInv(r) && r.started && Pending(r, n, p)
    ensures var r' := IdealStep(r, e);
            !Loses(r, e, n) <==> Pending(r', n, p) || (n <= r'.frontier && Numbered(n, p) in r'.sent)
  {
    match e
    case Rtp(q) =>
      var m := ReceivedAs(r, q);
      var store := Keep(r.store, m, q);
      KeepOneEachSlot(r.store, m, q);
      NotYetSent(r, n);
      if m == r.frontier + 1 && !Loses(r, e, n) {
        ReleaseOrKeep(r, store, m, n, p);
      }
    case KeyFrame(start) =>
      var m := Nearest(r.frontier, start);
      if m > r.frontier {
        if n < m { SkippedIsInGap(r.frontier, m, n); }
        ReleaseOrKeep(r, r.store, m, n, p);
        NotYetSent(r, n);
      }
  }

  lemma ReleaseOrKeep(r: Ideal, store: map<int, Packet>, m: int, n: int, p: Packet)
    requires n in store && store[n] == p
    ensures var ps := Batch(store, m);
            (m <= n < m + |ps| <==> Numbered(n, p) in ps) &&
            (m <= n ==> (n <= m + |ps| - 1 <==> Numbered(n, p) in ps)) &&
            (forall q :: Numbered(n, q) in ps ==> q == p)
  {
    var ps := Batch(store, m);
    if m <= n < m + |ps| {
      assert ps[n - m] == Numbered(n, p);
    }
  }

  lemma NotYetSent(r: Ideal, n: int)
    requires IdealInv(r) && n > r.frontier
    ensures forall q :: Numbered(n, q) !in r.sent
  {
    if r.sent != [] {
      assert forall i :: 0 <= i < |r.sent| ==> r.sent[i].n <= r.sent[|r.sent| - 1].n;
    }
  }

  /** After history `es`, no event of `more` throws number `n` away. */
  predicate Spared(es: seq<Event>, more: seq<Event>, n: int) {
    more == [] ||
    (Spared(es, more[..|more| - 1], n) && !Loses(IdealRun(es + more[..|more| - 1]), more[|more| - 1], n))
  }

  /** A pending packet is forwarded by the time the frontier reaches its number, unless one of the
      events in between throws it away. */
  lemma {:induction false} PendingIsForwarded(es: seq<Event>, more: seq<Event>, n: int, p: Packet)
    requires IdealRun(es).started && Pending(IdealRun(es), n, p)
    requires Spared(es, more, n)
    ensures var r := IdealRun(es + more);
            if n <= r.frontier then Numbered(n, p) in r.sent else Pending(r, n, p)
    decreases |more|
  {
    if more == [] {
      assert es + more == es;
    } else {
      var k := |more| - 1;
      var before, e := es + more[..k], more[k];
      assert es + more == before + [e];
      PendingIsForwarded(es, more[..k], n, p);
      StaysStarted(es, more[..k]);
      RunOne(before, e);
      IdealRunInv(before);
      PendingOrSentStep(IdealRun(before), e, n, p);
    }
  }

  lemma PendingOrSentStep(r: Ideal, e: Event, n: int, p: Packet)
    requires IdealInv(r) && r.started && !Loses(r, e, n)
    requires if n <= r.frontier then Numbered(n, p) in r.sent else Pending(r, n, p)
    ensures var r' := IdealStep(r, e);
            if n <= r'.frontier then Numbered(n, p) in r'.sent else Pending(r', n, p)
  {
    NeverBack(r, e);
    if n > r.frontier {
      PendingStep(r, e, n, p);
    }
  }

  lemma NeverBack(r: Ideal, e: Event)
    requires r.started
    ensures IdealStep(r, e).started && IdealStep(r, e).frontier >= r.frontier
    ensures r.sent <= IdealStep(r, e).sent
  {
  }

  lemma {:induction false} StaysStarted(es: seq<Event>, more: seq<Event>)
    requires IdealRun(es).started
    ensures IdealRun(es + more).started
    decreases |more|
  {
    if more == [] {
      assert es + more == es;
    } else {
      var k := |more| - 1;
      assert es + more == es + more[..k] + [more[k]];
      StaysStarted(es, more[..k]);
      RunOne(es + more[..k], more[k]);
    }
  }

  // ----- the same on the ring

  /** The ring sent `p`, as number `n`. */
  ghost predicate SentAs(es: seq<Event>, n: int, p: Packet) {
    exists k :: 0 <= k < |Run(es).sent| && SentThere(es, k, n, p)
  }

  predicate SentThere(es: seq<Event>, k: nat, n: int, p: Packet)
    requires k < |Run(es).sent|
  {
    Run(es).sent[k] == p && k < |IdealRun(es).sent| && IdealRun(es).sent[k].n == n
  }

  /** The cache of the ring holds `p` for number `n` ahead of the frontier. */
  predicate Waiting(es: seq<Event>, n: int, p: Packet) {
    n > IdealRun(es).frontier && Find(Run(es).cache, Low(n)) == Some(p)
  }

  lemma SentIsSent(es: seq<Event>, n: int, p: Packet)
    requires RestartsNear(es)
    ensures SentAs(es, n, p) <==> Numbered(n, p) in IdealRun(es).sent
  {
    RingRefinesMap(es);
    var s, r := Run(es).sent, IdealRun(es).sent;
    if Numbered(n, p) in r {
      var k :| 0 <= k < |r| && r[k] == Numbered(n, p);
      assert SentThere(es, k, n, p);
    }
    if SentAs(es, n, p) {
      var k :| 0 <= k < |s| && SentThere(es, k, n, p);
      assert r[k] == Numbered(n, p);
    }
  }

  lemma WaitingIsPending(es: seq<Event>, n: int, p: Packet)
    requires RestartsNear(es) && n <= IdealRun(es).frontier + 30720
    ensures Waiting(es, n, p) <==> Pending(IdealRun(es), n, p)
  {
    RingRefinesMap(es);
    if n > IdealRun(es).frontier {
      assert SameAt(Run(es).cache, IdealRun(es).store, n);
    }
  }

  lemma {:induction false} NearPrefix(es: seq<Event>, more: seq<Event>)
    requires RestartsNear(es + more)
    ensures RestartsNear(es)
    decreases |more|
  {
    if more == [] {
      assert es + more == es;
    } else {
      var k := |more| - 1;
      assert (es + more)[..|es| + k] == es + more[..k];
      NearPrefix(es, more[..k]);
    }
  }

  /** An event keeps a packet waiting in the ring, or makes the ring send it as the number it waited for,
      exactly if it is not one of those that throw it away. */
  lemma {:induction false} WaitingStep(es: seq<Event>, e: Event, n: int, p: Packet)
    requires RestartsNear(es + [e]) && IdealRun(es).started
    requires Waiting(es, n, p) && n <= IdealRun(es).frontier + 30720
    ensures !Loses(IdealRun(es), e, n) <==>
              if n <= IdealRun(es + [e]).frontier then SentAs(es + [e], n, p) else Waiting(es + [e], n, p)
  {
    NearPrefix(es, [e]);
    RunOne(es, e);
    IdealRunInv(es);
    NeverBack(IdealRun(es), e);
    WaitingIsPending(es, n, p);
    WaitingIsPending(es + [e], n, p);
    SentIsSent(es + [e], n, p);
    PendingStep(IdealRun(es), e, n, p);
  }

  lemma {:induction false} NeverBackRun(es: seq<Event>, more: seq<Event>)
    requires IdealRun(es).started
    ensures IdealRun(es + more).frontier >= IdealRun(es).frontier
    decreases |more|
  {
    if more == [] {
      assert es + more == es;
    } else {
      var k := |more| - 1;
      assert es + more == es + more[..k] + [more[k]];
      NeverBackRun(es, more[..k]);
      StaysStarted(es, more[..k]);
      RunOne(es + more[..k], more[k]);
      NeverBack(IdealRun(es + more[..k]), more[k]);
    }
  }

  /** A packet that waits in the ring has been sent, as the number it waited for, by the time the frontier
      reaches that number, and waits until then, unless one of the events in between throws it away. */
  lemma {:induction false} WaitingIsForwarded(es: seq<Event>, more: seq<Event>, n: int, p: Packet)
    requires RestartsNear(es + more) && IdealRun(es).started
    requires Waiting(es, n, p) && n <= IdealRun(es).frontier + 30720 && Spared(es, more, n)
    ensures if n <= IdealRun(es + more).frontier then SentAs(es + more, n, p) && p in Run(es + more).sent
            else Waiting(es + more, n, p)
  {
    NearPrefix(es, more);
    NeverBackRun(es, more);
    WaitingIsPending(es, n, p);
    WaitingIsPending(es + more, n, p);
    SentIsSent(es + more, n, p);
    PendingIsForwarded(es, more, n, p);
  }

  lemma RunTwo(es: seq<Event>, e0: Event, e1: Event)
    ensures Run(es + [e0, e1]) == Step(Step(Run(es), e0), e1)
  {
    RunOne(es, e0);
    RunOne(es + [e0], e1);
    assert es + [e0] + [e1] == es + [e0, e1];
  }

  lemma RunFour(e0: Event, e1: Event, e2: Event, e3: Event)
    ensures Run([e0, e1, e2, e3]) == Step(Step(Step(Step(INITIAL, e0), e1), e2), e3)
  {
    RunTwo([], e0, e1);
    RunTwo([e0, e1], e2, e3);
    assert [] + [e0, e1] == [e0, e1] && [e0, e1] + [e2, e3] == [e0, e1, e2, e3];
  }

  /** Such an event does occur: the late packet 63500 lands in the slot of pending packet 12, which is
      then never forwarded although the gap before it closes. */
  lemma LatePacketEvictsPending(a: Packet, b: Packet, late: Packet, d: Packet)
    requires a.seqNum == 10 && b.seqNum == 12 && late.seqNum == 63500 && d.seqNum == 11
    ensures var es := [Rtp(a), Rtp(b), Rtp(late), Rtp(d)];
            Run(es).sent == [a, d] && Run(es).videoSeq == 11 && Find(Run(es).cache, 12).None?
  {
    RunFour(Rtp(a), Rtp(b), Rtp(late), Rtp(d));
    var s1 := OnPacket(INITIAL, a);
    var s2 := OnPacket(s1, b);
    assert s2.videoSeq == 10 && s2.sent == [a] && s2.Started() && s2.cache[11] == None;
    var s := OnPacket(s2, late);
    assert s == s2.(cache := s2.cache[12 := Some(late)]);
    var c := Store(s.cache, d);
    assert c[11] == Some(d) && c[12] == Some(late);
    assert Probe(c, 11, 0) == Some(d) && Probe(c, 11, 1) == None;
    RunLengthUnique(c, 11, 1, 2049);
    assert Released(c, 11) == [d];
  }
}
