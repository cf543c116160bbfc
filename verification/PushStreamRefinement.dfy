/** The forwarder re-told over unbounded extended numbers and a map instead of a ring, and the proof
    that the ring keyed by 16-bit numbers behaves exactly like it on every history. */
module PushStreamRefinement {
  import opened Options
  import opened SeqNum
  import opened PushStream

  /** A packet together with the extended number it was received as. */
  datatype Numbered = Numbered(n: int, packet: Packet)

  /** `heard` collects every packet received, `restarts` every number a key frame restarted at. */
  datatype Ideal = Ideal(store: map<int, Packet>, frontier: int, started: bool,
                         sent: seq<Numbered>, heard: set<Numbered>, restarts: set<int>)

  const IDEAL_INITIAL := Ideal(map[], 0, false, [], {}, {})

  function Get(store: map<int, Packet>, n: int): Slot {
    if n in store then Some(store[n]) else None
  }

  /** Keeps a known number; otherwise the newcomer displaces whatever is a multiple of 2048 away. */
  function Keep(store: map<int, Packet>, n: int, p: Packet): map<int, Packet> {
    if n in store then store
    else (map m | m in store && m % 2048 != n % 2048 :: store[m])[n := p]
  }

  function Consecutive(store: map<int, Packet>, n: int, limit: nat): (k: nat)
    ensures k <= limit
    ensures k < limit ==> n + k !in store
    ensures forall i :: n <= i < n + k ==> i in store
    decreases |store|, limit
  {
    if limit == 0 || n !in store then 0 else 1 + Consecutive(store, n + 1, limit - 1)
  }

  function Batch(store: map<int, Packet>, n: int): (ps: seq<Numbered>)
    ensures |ps| == Consecutive(store, n, 2049)
    ensures forall j :: 0 <= j < |ps| ==> n + j in store && ps[j] == Numbered(n + j, store[n + j])
  {
    seq(Consecutive(store, n, 2049), j requires 0 <= j < Consecutive(store, n, 2049) =>
      Numbered(n + j, store[n + j]))
  }

  function Forget(store: map<int, Packet>, first: int, count: nat): map<int, Packet> {
    map m | m in store && !InGap(m, first, count) :: store[m]
  }

  function ReceivedAs(r: Ideal, p: Packet): int {
    if r.started then Nearest(r.frontier, p.seqNum) else p.seqNum
  }

  function IdealPacket(r: Ideal, p: Packet): Ideal {
    var n := ReceivedAs(r, p);
    var store := Keep(r.store, n, p);
    var r' := r.(store := store, heard := r.heard + {Numbered(n, p)});
    if !r.started then r'.(frontier := n, started := true, sent := r.sent + [Numbered(n, p)])
    else if n != r.frontier + 1 then r'
    else
      var ps := Batch(store, n);
      r'.(frontier := r.frontier + |ps|, sent := r.sent + ps)
  }

  function IdealKeyFrame(r: Ideal, start: Seq16): Ideal {
    var n := Nearest(r.frontier, start);
    if n <= r.frontier then r
    else
      var ps := Batch(r.store, n);
      r.(store := Forget(r.store, r.frontier + 1, n - 1 - r.frontier),
         frontier := n + |ps| - 1, sent := r.sent + ps, restarts := r.restarts + {n})
  }

  function IdealStep(r: Ideal, e: Event): Ideal {
    match e
    case Rtp(p) => IdealPacket(r, p)
    case KeyFrame(start) => IdealKeyFrame(r, start)
  }

  function IdealRun(es: seq<Event>): Ideal {
    if es == [] then IDEAL_INITIAL else IdealStep(IdealRun(es[..|es| - 1]), es[|es| - 1])
  }

  /** A key frame restarts at most 2^15 - 4095 numbers ahead of the frontier; from the next distance on
      the ring can alias. */
  predicate Near(r: Ideal, e: Event) {
    e.KeyFrame? && r.started ==> Nearest(r.frontier, e.start) <= r.frontier + 28673
  }

  predicate RestartsNear(es: seq<Event>) {
    es == [] || (RestartsNear(es[..|es| - 1]) && Near(IdealRun(es[..|es| - 1]), es[|es| - 1]))
  }

  // ----- what the idealised forwarder guarantees in every reachable state

  ghost predicate OneEachSlot(store: map<int, Packet>) {
    forall m, n :: m in store && n in store && m % 2048 == n % 2048 ==> m == n
  }

  ghost predicate Ordered(sent: seq<Numbered>) {
    forall i, j :: 0 <= i < j < |sent| ==> sent[i].n < sent[j].n
  }

  /** The number after `n` went out, or a key frame restarted there. */
  predicate Follows(n: int, next: int, restarts: set<int>) {
    next == n + 1 || next in restarts
  }

  ghost predicate NoUnexplainedGap(r: Ideal) {
    && (forall i :: 0 < i < |r.sent| ==> Follows(r.sent[i - 1].n, r.sent[i].n, r.restarts))
    && (r.sent != [] ==> var last := r.sent[|r.sent| - 1].n;
                         last <= r.frontier && Follows(last, r.frontier + 1, r.restarts))
  }

  ghost predicate Genuine(r: Ideal) {
    && (forall n :: n in r.store ==> Numbered(n, r.store[n]) in r.heard)
    && (forall x :: x in r.sent ==> x in r.heard)
    && (forall x :: x in r.heard ==> Low(x.n) == x.packet.seqNum)
  }

  ghost predicate IdealInv(r: Ideal) {
    && OneEachSlot(r.store)
    && Ordered(r.sent) && NoUnexplainedGap(r) && Genuine(r)
    && (!r.started ==> r.store == map[] && r.sent == [] && r.heard == {})
  }

  lemma BatchFits(store: map<int, Packet>, n: int)
    requires OneEachSlot(store)
    ensures |Batch(store, n)| <= 2048 && n + |Batch(store, n)| !in store
  {
    assert Consecutive(store, n, 2049) == 2049 ==> n in store && n + 2048 in store;
  }

  lemma AppendOrdered(r: Ideal, store: map<int, Packet>, n: int)
    requires Ordered(r.sent) && NoUnexplainedGap(r) && n > r.frontier
    ensures Ordered(r.sent + Batch(store, n))
  {
    assert r.sent != [] ==> forall i :: 0 <= i < |r.sent| ==> r.sent[i].n <= r.sent[|r.sent| - 1].n;
  }

  lemma AppendBatch(r: Ideal, store: map<int, Packet>, n: int)
    requires Ordered(r.sent) && NoUnexplainedGap(r)
    requires n > r.frontier && (n == r.frontier + 1 || n in r.restarts)
    ensures var ps := Batch(store, n);
            var r' := r.(frontier := n + |ps| - 1, sent := r.sent + ps);
            Ordered(r'.sent) && ((ps == [] ==> n in r.restarts) ==> NoUnexplainedGap(r'))
  {
    AppendOrdered(r, store, n);
  }

  lemma KeepOneEachSlot(store: map<int, Packet>, n: int, p: Packet)
    requires OneEachSlot(store)
    ensures OneEachSlot(Keep(store, n, p))
  {
  }

  lemma KeepGenuine(r: Ideal, n: int, p: Packet)
    requires Genuine(r) && Low(n) == p.seqNum
    ensures Genuine(r.(store := Keep(r.store, n, p), heard := r.heard + {Numbered(n, p)}))
  {
  }

  lemma BatchGenuine(r: Ideal, n: int)
    requires Genuine(r)
    ensures Genuine(r.(sent := r.sent + Batch(r.store, n)))
  {
  }

  lemma IdealPacketInv(r: Ideal, p: Packet)
    requires IdealInv(r)
    ensures IdealInv(IdealPacket(r, p))
  {
    var n := ReceivedAs(r, p);
    var store := Keep(r.store, n, p);
    var r1 := r.(store := store, heard := r.heard + {Numbered(n, p)});
    KeepOneEachSlot(r.store, n, p);
    KeepGenuine(r, n, p);
    if r.started && n == r.frontier + 1 {
      AppendBatch(r1, store, n);
      BatchGenuine(r1, n);
    }
  }

  lemma ForgetKeeps(r: Ideal, first: int, count: nat)
    requires OneEachSlot(r.store) && Genuine(r)
    ensures OneEachSlot(Forget(r.store, first, count)) && Genuine(r.(store := Forget(r.store, first, count)))
  {
  }

  lemma RestartOrdered(r: Ideal, n: int)
    requires Ordered(r.sent) && NoUnexplainedGap(r) && n > r.frontier
    ensures var ps := Batch(r.store, n);
            var r' := r.(frontier := n + |ps| - 1, sent := r.sent + ps, restarts := r.restarts + {n});
            Ordered(r'.sent) && NoUnexplainedGap(r')
  {
    AppendBatch(r.(restarts := r.restarts + {n}), r.store, n);
  }

  lemma RestartGenuine(r: Ideal, n: int, first: int, count: nat)
    requires OneEachSlot(r.store) && Genuine(r)
    ensures OneEachSlot(Forget(r.store, first, count))
    ensures Genuine(r.(sent := r.sent + Batch(r.store, n), store := Forget(r.store, first, count)))
  {
    BatchGenuine(r, n);
    ForgetKeeps(r.(sent := r.sent + Batch(r.store, n)), first, count);
  }

  lemma RestartIs(r: Ideal, start: Seq16, n: int)
    requires n == Nearest(r.frontier, start) > r.frontier
    requires var ps := Batch(r.store, n);
             var r' := r.(frontier := n + |ps| - 1, sent := r.sent + ps, restarts := r.restarts + {n});
             Ordered(r'.sent) && NoUnexplainedGap(r')
    requires var store := Forget(r.store, r.frontier + 1, n - 1 - r.frontier);
             OneEachSlot(store) && Genuine(r.(sent := r.sent + Batch(r.store, n), store := store))
    requires !r.started ==> r.store == map[] && r.sent == [] && r.heard == {}
    ensures IdealInv(IdealKeyFrame(r, start))
  {
    assert !r.started ==> Batch(r.store, n) == [];
  }

  lemma IdealKeyFrameInv(r: Ideal, start: Seq16)
    requires IdealInv(r)
    ensures IdealInv(IdealKeyFrame(r, start))
  {
    var n := Nearest(r.frontier, start);
    if n > r.frontier {
      RestartOrdered(r, n);
      RestartGenuine(r, n, r.frontier + 1, n - 1 - r.frontier);
      RestartIs(r, start, n);
    }
  }

  lemma IdealStepInv(r: Ideal, e: Event)
    requires IdealInv(r)
    ensures IdealInv(IdealStep(r, e))
  {
    match e
    case Rtp(p) => IdealPacketInv(r, p);
    case KeyFrame(start) => IdealKeyFrameInv(r, start);
  }

  lemma {:induction false} IdealRunInv(es: seq<Event>)
    ensures IdealInv(IdealRun(es))
  {
    if es != [] {
      IdealRunInv(es[..|es| - 1]);
      IdealStepInv(IdealRun(es[..|es| - 1]), es[|es| - 1]);
    }
  }

  // ----- the ring agrees with the map

  /** The numbers a lookup can be about: the last 2048 and everything up to 2^15 - 2048 ahead. */
  predicate InWindow(frontier: int, n: int) {
    frontier - 2048 < n <= frontier + 30720
  }

  predicate SameAt(c: Cache, store: map<int, Packet>, n: int) {
    Find(c, Low(n)) == Get(store, n)
  }

  ghost predicate Agree(c: Cache, store: map<int, Packet>, frontier: int) {
    forall n :: InWindow(frontier, n) ==> SameAt(c, store, n)
  }

  ghost predicate Simulates(s: Stream, r: Ideal) {
    && Low(r.frontier) == s.videoSeq
    && r.started == s.Started()
    && |s.sent| == |r.sent| && (forall i :: 0 <= i < |s.sent| ==> s.sent[i] == r.sent[i].packet)
    && Agree(s.cache, r.store, r.frontier)
    && (!r.started ==> forall i :: 0 <= i < 2048 ==> s.cache[i] == None)
  }

  lemma StoreAgrees(c: Cache, store: map<int, Packet>, frontier: int, n: int, p: Packet)
    requires Agree(c, store, frontier) && OneEachSlot(store)
    requires Low(n) == p.seqNum && frontier - 0x8000 <= n <= frontier + 0x8000
    ensures Agree(Store(c, p), Keep(store, n, p), frontier)
  {
    forall m | InWindow(frontier, m) ensures SameAt(Store(c, p), Keep(store, n, p), m) {
      assert SameAt(c, store, m);
      if Low(m) == Low(n) {
        LowInjective(m, n);
        StoredAgrees(c, store, n, p);
      } else {
        StoreAgreesAt(c, store, n, p, m);
      }
    }
  }

  lemma StoredAgrees(c: Cache, store: map<int, Packet>, n: int, p: Packet)
    requires SameAt(c, store, n) && Low(n) == p.seqNum
    ensures SameAt(Store(c, p), Keep(store, n, p), n)
  {
  }

  lemma StoreAgreesAt(c: Cache, store: map<int, Packet>, n: int, p: Packet, m: int)
    requires OneEachSlot(store) && SameAt(c, store, m) && Low(n) == p.seqNum && Low(m) != Low(n)
    ensures SameAt(Store(c, p), Keep(store, n, p), m)
  {
    SlotOf(m);
    SlotOf(n);
  }

  lemma BatchAgrees(c: Cache, store: map<int, Packet>, frontier: int, n: int)
    requires Agree(c, store, frontier) && OneEachSlot(store)
    requires frontier < n <= frontier + 28673
    ensures |Released(c, Low(n))| == |Batch(store, n)|
    ensures forall j :: 0 <= j < |Batch(store, n)| ==> Released(c, Low(n))[j] == Batch(store, n)[j].packet
  {
    BatchFits(store, n);
    var k := |Batch(store, n)|;
    forall j | 0 <= j <= k && j < 2048 ensures Probe(c, Low(n), j) == Get(store, n + j) {
      LowOfSum(n, j);
      assert SameAt(c, store, n + j);
    }
    if k == 2048 {
      FullCircleMisses(c, Low(n));
    }
    RunLengthUnique(c, Low(n), k, 2049);
  }

  /** A run of 2048 hits has filled every slot, so the next lookup misses wherever the window ends. */
  lemma FullCircleMisses(c: Cache, s: Seq16)
    requires Probe(c, s, 0).Some?
    ensures Probe(c, s, 2048).None?
  {
    assert Low(s) == s && Low(s) % 2048 == Low(s + 2048) % 2048 && Low(s) != Low(s + 2048);
  }

  /** The frontier may slide over numbers whose slots hold those very numbers, or were wiped. */
  lemma SlideAgrees(c: Cache, store: map<int, Packet>, frontier: int, k: nat)
    requires Agree(c, store, frontier) && OneEachSlot(store)
    requires k <= 2048 && forall i :: frontier < i <= frontier + k ==> i in store
    ensures Agree(c, store, frontier + k)
  {
    forall n | InWindow(frontier + k, n) ensures SameAt(c, store, n) {
      if !InWindow(frontier, n) {
        PassedSlot(c, store, frontier, n - 30720);
      } else {
        assert SameAt(c, store, n);
      }
    }
  }

  /** 2048 divides 65536, so a number and its wire form share a slot. */
  lemma SlotOf(n: int)
    ensures Low(n) % 2048 == n % 2048
  {
  }

  lemma SameSlotAbove(q: int)
    ensures (q + 30720) % 2048 == q % 2048 && Low(q) != Low(q + 30720)
  {
  }

  lemma InGapOfSlot(m: int, m': int, first: int, first': int, count: nat)
    requires m % 2048 == m' % 2048 && first % 2048 == first' % 2048
    ensures InGap(m, first, count) == InGap(m', first', count)
  {
    assert (m - first) % 2048 == (m' - first') % 2048;
  }

  lemma PassedSlot(c: Cache, store: map<int, Packet>, frontier: int, q: int)
    requires Agree(c, store, frontier) && OneEachSlot(store)
    requires InWindow(frontier, q) && q in store
    ensures SameAt(c, store, q + 30720)
  {
    assert SameAt(c, store, q);
    SlotOf(q);
    SlotOf(q + 30720);
    SameSlotAbove(q);
  }

  lemma ClearedAgreesAt(c: Cache, store: map<int, Packet>, first: int, count: nat, m: int)
    requires SameAt(c, store, m) || InGap(m, first, count)
    ensures SameAt(Cleared(c, Low(first), count), Forget(store, first, count), m)
  {
    SlotOf(m);
    SlotOf(first);
    InGapOfSlot(m, Low(m) % 2048, first, Low(first), count);
  }

  lemma WireGap(frontier: int, n: int)
    requires frontier < n <= frontier + 28673
    ensures GapLength(Low(frontier + 1), Low(n - 1)) == n - 1 - frontier
  {
    AheadIsOrder(n - 1, frontier + 1);
    LowOfSum(frontier + 1, n - 2 - frontier);
  }

  lemma ClearAgrees(c: Cache, store: map<int, Packet>, frontier: int, n: int)
    requires Agree(c, store, frontier) && OneEachSlot(store)
    requires frontier < n <= frontier + 28673
    ensures Agree(Cleared(c, Low(frontier + 1), n - 1 - frontier),
                  Forget(store, frontier + 1, n - 1 - frontier), n + |Batch(store, n)| - 1)
  {
    BatchFits(store, n);
    var first, count := frontier + 1, n - 1 - frontier;
    forall m | InWindow(n + |Batch(store, n)| - 1, m)
      ensures SameAt(Cleared(c, Low(first), count), Forget(store, first, count), m)
    {
      if !InGap(m, first, count) {
        ClearedSlide(c, store, frontier, n, m);
      }
      ClearedAgreesAt(c, store, first, count, m);
    }
  }

  /** Slots outside the gap: what was visible before stays; what slides into view was passed over. */
  lemma ClearedSlide(c: Cache, store: map<int, Packet>, frontier: int, n: int, m: int)
    requires Agree(c, store, frontier) && OneEachSlot(store)
    requires frontier < n <= frontier + 28673
    requires InWindow(n + |Batch(store, n)| - 1, m) && !InGap(m, frontier + 1, n - 1 - frontier)
    ensures SameAt(c, store, m)
  {
    if !InWindow(frontier, m) {
      BatchFits(store, n);
      var q := m - 30720;
      SameSlotAbove(q);
      InGapOfSlot(q, m, frontier + 1, frontier + 1, n - 1 - frontier);
      if q < n { SkippedIsInGap(frontier, n, q); }
      PassedSlot(c, store, frontier, q);
    }
  }

  lemma SkippedIsInGap(frontier: int, n: int, q: int)
    requires frontier < q < n
    ensures InGap(q, frontier + 1, n - 1 - frontier)
  {
  }

  lemma SimulatesStep(s: Stream, r: Ideal, e: Event)
    requires Simulates(s, r) && IdealInv(r) && Near(r, e)
    ensures Simulates(Step(s, e), IdealStep(r, e))
  {
    match e
    case Rtp(p) => SimulatesPacket(s, r, p);
    case KeyFrame(start) => SimulatesKeyFrame(s, r, start);
  }

  lemma SimulatesFirst(s: Stream, r: Ideal, p: Packet)
    requires Simulates(s, r) && IdealInv(r) && !r.started
    ensures Simulates(OnPacket(s, p), IdealPacket(r, p))
  {
    var n: int := p.seqNum;
    forall m | InWindow(n, m) ensures SameAt(Store(s.cache, p), Keep(r.store, n, p), m) {
      if Low(m) == Low(n) {
        LowInjective(m, n);
      }
    }
  }

  lemma ExpectedIsNext(frontier: int, s: Seq16)
    ensures s == Low(Low(frontier) + 1) <==> Nearest(frontier, s) == frontier + 1
  {
    LowOfSum(frontier, 1);
    NearestRecovers(frontier, frontier + 1);
  }

  lemma SimulatesPacket(s: Stream, r: Ideal, p: Packet)
    requires Simulates(s, r) && IdealInv(r)
    ensures Simulates(OnPacket(s, p), IdealPacket(r, p))
  {
    if !r.started {
      SimulatesFirst(s, r, p);
    } else {
      var n := ReceivedAs(r, p);
      var c, store := Store(s.cache, p), Keep(r.store, n, p);
      KeepOneEachSlot(r.store, n, p);
      StoreAgrees(s.cache, r.store, r.frontier, n, p);
      ExpectedIsNext(r.frontier, p.seqNum);
      if n == r.frontier + 1 {
        var k := |Batch(store, n)|;
        BatchAgrees(c, store, r.frontier, n);
        BatchFits(store, n);
        SlideAgrees(c, store, r.frontier, k);
        LowOfSum(n, k - 1);
      }
    }
  }

  /** A restart on the ring, told by extended numbers. */
  lemma RestartOnRing(s: Stream, frontier: int, n: int, k: nat)
    requires s.videoSeq == Low(frontier) && frontier < n <= frontier + 28673 && |Released(s.cache, Low(n))| == k
    ensures OnKeyFrame(s, Low(n)) == Stream(Cleared(s.cache, Low(frontier + 1), n - 1 - frontier), Low(n + k - 1),
                                            s.firstSeqTime, s.sent + Released(s.cache, Low(n)))
  {
    AheadIsOrder(n, frontier);
    LowOfSum(n, k - 1);
    LowOfSum(frontier, 1);
    LowOfSum(n, -1);
    WireGap(frontier, n);
  }

  lemma SimulatesRestart(s: Stream, r: Ideal, n: int)
    requires Simulates(s, r) && IdealInv(r) && r.started && r.frontier < n <= r.frontier + 28673
    ensures Simulates(OnKeyFrame(s, Low(n)), IdealKeyFrame(r, Low(n)))
  {
    NearestRecovers(r.frontier, n);
    BatchAgrees(s.cache, r.store, r.frontier, n);
    ClearAgrees(s.cache, r.store, r.frontier, n);
    RestartOnRing(s, r.frontier, n, |Batch(r.store, n)|);
  }

  lemma SimulatesKeyFrame(s: Stream, r: Ideal, start: Seq16)
    requires Simulates(s, r) && IdealInv(r) && Near(r, KeyFrame(start))
    ensures Simulates(OnKeyFrame(s, start), IdealKeyFrame(r, start))
  {
    var n := Nearest(r.frontier, start);
    if n > r.frontier && r.started {
      SimulatesRestart(s, r, n);
    } else if n > r.frontier {
      assert Probe(s.cache, start, 0).None?;
      RunLengthUnique(s.cache, start, 0, 2049);
      LowOfSum(n, -1);
    }
  }

  /** On every history whose key frames restart nearby, the ring with 16-bit numbers hands on the
      same packets as the idealised forwarder, and its lookups answer for the same numbers. */
  lemma {:induction false} RingRefinesMap(es: seq<Event>)
    requires RestartsNear(es)
    ensures Simulates(Run(es), IdealRun(es))
  {
    if es != [] {
      var before := es[..|es| - 1];
      RingRefinesMap(before);
      IdealRunInv(before);
      SimulatesStep(Run(before), IdealRun(before), es[|es| - 1]);
    }
  }
}
