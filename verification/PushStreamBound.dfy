/** How far ahead a key frame may restart before the ring can hand on a packet under a wrong number: the
    bound of the refinement is exact. */
module PushStreamBound {
  import opened Options
  import opened SeqNum
  import opened PushStream
  import opened PushStreamRefinement
  import opened PushStreamTheorems

  /** The ring sends something else than the forwarder that knows extended numbers. */
  predicate Aliases(es: seq<Event>) {
    Run(es).sent != PacketsOf(IdealRun(es).sent)
  }

  function PacketsOf(sent: seq<Numbered>): (ps: seq<Packet>)
    ensures |ps| == |sent|
  {
    seq(|sent|, i requires 0 <= i < |sent| => sent[i].packet)
  }

  /** After `es`, all of whose restarts were near, a key frame at `start` restarts `d` numbers ahead. */
  predicate RestartsAt(es: seq<Event>, start: Seq16, d: int) {
    RestartsNear(es) && IdealRun(es).started && Nearest(IdealRun(es).frontier, start) == IdealRun(es).frontier + d
  }

  ghost predicate SafeDistance(d: int) {
    forall es, start :: RestartsAt(es, start, d) ==> !Aliases(es + [KeyFrame(start)])
  }

  /** The restart distances at which no history whatsoever makes the ring alias are exactly those up to
      2^15 - 4095. */
  lemma BoundIsExact(d: int)
    requires 1 <= d <= 0x8000
    ensures SafeDistance(d) <==> d <= 28673
  {
    if d <= 28673 {
      forall es, start | RestartsAt(es, start, d) ensures !Aliases(es + [KeyFrame(start)]) {
        NearIsSafe(es, start, d);
      }
    } else {
      var es, start := FarRestartAliases(d);
    }
  }

  lemma NearIsSafe(es: seq<Event>, start: Seq16, d: int)
    requires RestartsAt(es, start, d) && d <= 28673
    ensures !Aliases(es + [KeyFrame(start)])
  {
    var e, all := KeyFrame(start), es + [KeyFrame(start)];
    assert all[..|es|] == es && all[|es|] == e;
    RingRefinesMap(all);
    assert Run(all).sent == PacketsOf(IdealRun(all).sent);
  }

  // ----- a history for every distance beyond

  function At(s: Seq16): Packet { Packet(s, 0, []) }

  /** The packets `n`, `n` + 1, ..., `k` of them. */
  function Burst(n: int, k: nat): seq<Event> {
    if k == 0 then [] else Burst(n, k - 1) + [Rtp(At(Low(n + k - 1)))]
  }

  /** First packet 32768, late packet 0 in slot 0, a restart that moves the frontier to `f` past a gap
      that spares slot 0, and the packets from `n` up to 65535, `k` of them so far. */
  function History(f: int, n: int, k: nat): seq<Event> {
    [Rtp(At(32768)), Rtp(At(0)), KeyFrame(Low(f + 1))] + Burst(n, k)
  }

  predicate Shape(f: int, n: int, k: nat) {
    && 32769 <= f <= 34815 && 63489 <= n <= 65536 && k <= 65536 - n && (n == 65536 || f == 34815)
  }

  /** Slot 0 holds packet 0, slot i the packet 63488 + i if it has come, and nothing else is cached. */
  ghost predicate CacheIs(c: Cache, n: int, k: nat) {
    c[0] == Some(At(0)) &&
    forall i :: 0 < i < 2048 ==> c[i] == if n <= 63488 + i < n + k then Some(At(63488 + i)) else None
  }

  ghost predicate StoreIs(store: map<int, Packet>, n: int, k: nat) {
    (forall m :: m in store <==> m == 0 || n <= m < n + k) && forall m :: m in store ==> store[m] == At(Low(m))
  }

  ghost predicate StreamIs(s: Stream, f: int, n: int, k: nat) {
    s.Started() && s.videoSeq == Low(f) && s.sent == [At(32768)] && CacheIs(s.cache, n, k)
  }

  ghost predicate IdealIs(r: Ideal, f: int, n: int, k: nat) {
    r.started && r.frontier == f && r.sent == [Numbered(32768, At(32768))] && StoreIs(r.store, n, k)
  }

  /** What the histories below have brought about after `es`. */
  ghost predicate Reaches(es: seq<Event>, f: int, n: int, k: nat) {
    RestartsNear(es) && StreamIs(Run(es), f, n, k) && IdealIs(IdealRun(es), f, n, k)
  }

  lemma ReachesNext(es: seq<Event>, e: Event, f: int, n: int, k: nat)
    requires RestartsNear(es) && Near(IdealRun(es), e)
    requires StreamIs(Step(Run(es), e), f, n, k) && IdealIs(IdealStep(IdealRun(es), e), f, n, k)
    ensures Reaches(es + [e], f, n, k)
  {
    RunOne(es, e);
    assert (es + [e])[..|es|] == es;
  }

  lemma TwoOnRing()
    ensures StreamIs(OnPacket(OnPacket(INITIAL, At(32768)), At(0)), 32768, 65536, 0)
  {
    var s := OnPacket(INITIAL, At(32768));
    assert s.cache == EmptySlots(2048)[0 := Some(At(32768))] && s.videoSeq == 32768;
  }

  lemma TwoOnMap()
    ensures IdealIs(IdealPacket(IdealPacket(IDEAL_INITIAL, At(32768)), At(0)), 32768, 65536, 0)
  {
    var r := IdealPacket(IDEAL_INITIAL, At(32768));
    assert r.store == map[32768 := At(32768)];
    assert Nearest(32768, 0) == 0;
  }

  lemma TwoPackets()
    ensures Reaches([Rtp(At(32768)), Rtp(At(0))], 32768, 65536, 0)
  {
    var first, late := Rtp(At(32768)), Rtp(At(0));
    RunOne([], first);
    assert [] + [first] == [first] && [first] + [late] == [first, late] && [first][..0] == [];
    TwoOnRing();
    TwoOnMap();
    ReachesNext([first], late, 32768, 65536, 0);
  }

  lemma SkipOnRing(s: Stream, f: int)
    requires StreamIs(s, 32768, 65536, 0) && 32769 <= f <= 34815
    ensures StreamIs(OnKeyFrame(s, Low(f + 1)), f, 65536, 0)
  {
    var start := Low(f + 1);
    MissAt(s.cache, start);
    var first, last := Low(s.videoSeq + 1), Low(start - 1);
    assert GapLength(first, last) == f - 32768;
    forall i | 0 <= i < 2048 ensures Cleared(s.cache, first, f - 32768)[i] == s.cache[i] {}
  }

  lemma SkipOnMap(r: Ideal, f: int)
    requires IdealIs(r, 32768, 65536, 0) && 32769 <= f <= 34815
    ensures IdealIs(IdealKeyFrame(r, Low(f + 1)), f, 65536, 0) && Near(r, KeyFrame(Low(f + 1)))
  {
    NearestRecovers(32768, f + 1);
    assert Batch(r.store, f + 1) == [];
    assert !InGap(0, 32769, f - 32768);
  }

  lemma AfterSkip(f: int, n: int)
    requires Shape(f, n, 0)
    ensures Reaches(History(f, n, 0), f, n, 0)
  {
    var two, e := [Rtp(At(32768)), Rtp(At(0))], KeyFrame(Low(f + 1));
    assert History(f, n, 0) == two + [e];
    TwoPackets();
    SkipOnRing(Run(two), f);
    SkipOnMap(IdealRun(two), f);
    ReachesNext(two, e, f, n, 0);
  }

  lemma BurstOnRing(s: Stream, f: int, n: int, k: nat)
    requires Shape(f, n, k + 1) && StreamIs(s, f, n, k)
    ensures StreamIs(OnPacket(s, At(Low(n + k))), f, n, k + 1)
  {
    var q := n + k;
    assert Low(q) == q && q % 2048 == q - 63488;
    assert s.cache[q - 63488] == None;
  }

  lemma BurstOnMap(r: Ideal, f: int, n: int, k: nat)
    requires Shape(f, n, k + 1) && IdealIs(r, f, n, k)
    ensures IdealIs(IdealPacket(r, At(Low(n + k))), f, n, k + 1)
  {
    var q := n + k;
    NearestRecovers(f, q);
    assert forall m :: n <= m < q ==> m % 2048 == m - 63488;
    assert q % 2048 == q - 63488;
  }

  lemma BurstGrows(es: seq<Event>, f: int, n: int, k: nat)
    requires Reaches(es, f, n, k) && Shape(f, n, k + 1)
    ensures Reaches(es + [Rtp(At(Low(n + k)))], f, n, k + 1)
  {
    BurstOnRing(Run(es), f, n, k);
    BurstOnMap(IdealRun(es), f, n, k);
    ReachesNext(es, Rtp(At(Low(n + k))), f, n, k + 1);
  }

  lemma HistoryNext(f: int, n: int, k: nat)
    ensures History(f, n, k + 1) == History(f, n, k) + [Rtp(At(Low(n + k)))]
  {
    var front := [Rtp(At(32768)), Rtp(At(0)), KeyFrame(Low(f + 1))];
    assert Burst(n, k + 1) == Burst(n, k) + [Rtp(At(Low(n + k)))];
    assert front + (Burst(n, k) + [Rtp(At(Low(n + k)))]) == front + Burst(n, k) + [Rtp(At(Low(n + k)))];
  }

  lemma OnePacketMore(f: int, n: int, k: nat)
    requires Shape(f, n, k + 1) && Reaches(History(f, n, k), f, n, k)
    ensures Reaches(History(f, n, k + 1), f, n, k + 1)
  {
    BurstGrows(History(f, n, k), f, n, k);
    HistoryNext(f, n, k);
  }

  lemma {:induction false} AfterBurst(f: int, n: int, k: nat)
    requires Shape(f, n, k)
    ensures Reaches(History(f, n, k), f, n, k)
  {
    if k == 0 {
      AfterSkip(f, n);
    } else {
      AfterBurst(f, n, k - 1);
      OnePacketMore(f, n, k - 1);
    }
  }

  /** The ring runs on from 65535 to wire number 0 and hands on packet 0 as number 65536. */
  lemma RingRunsOn(c: Cache, n: int)
    requires 63489 <= n <= 65536 && CacheIs(c, n, 65536 - n)
    ensures |Released(c, Low(n))| == 65536 - n + 1
  {
    var k := 65536 - n;
    forall j | 0 <= j <= k ensures Probe(c, Low(n), j) == Some(At(Low(n + j))) {
      RingHas(c, n, j);
    }
    RingEnds(c, n);
    RunLengthUnique(c, Low(n), k + 1, 2049);
  }

  lemma RingHas(c: Cache, n: int, j: nat)
    requires 63489 <= n <= 65536 && CacheIs(c, n, 65536 - n) && j <= 65536 - n
    ensures Probe(c, Low(n), j) == Some(At(Low(n + j)))
  {
    LowOfSum(n, j);
    assert n + j < 65536 ==> Low(n + j) == n + j && (n + j) % 2048 == n + j - 63488;
  }

  lemma RingEnds(c: Cache, n: int)
    requires 63489 <= n <= 65536 && CacheIs(c, n, 65536 - n)
    ensures Probe(c, Low(n), 65537 - n).None?
  {
    LowOfSum(n, 65537 - n);
  }

  lemma MapStops(store: map<int, Packet>, n: int)
    requires 63489 <= n <= 65536 && StoreIs(store, n, 65536 - n)
    ensures |Batch(store, n)| == 65536 - n
  {
    BatchEnds(store, n, 65536 - n);
  }

  lemma BatchEnds(store: map<int, Packet>, n: int, k: nat)
    requires k < 2049 && n + k !in store && forall m :: n <= m < n + k ==> m in store
    ensures |Batch(store, n)| == k
  {
    var c := Consecutive(store, n, 2049);
    assert c < k ==> n + c in store;
  }

  lemma RunThree(p: Packet, q: Packet, u: Packet)
    ensures var es := [Rtp(p), Rtp(q), Rtp(u)];
            Run(es) == OnPacket(OnPacket(OnPacket(INITIAL, p), q), u) &&
            IdealRun(es) == IdealPacket(IdealPacket(IdealPacket(IDEAL_INITIAL, p), q), u)
  {
    RunOne([], Rtp(p));
    RunOne([Rtp(p)], Rtp(q));
    RunOne([Rtp(p), Rtp(q)], Rtp(u));
    assert [] + [Rtp(p)] == [Rtp(p)] && [Rtp(p)] + [Rtp(q)] == [Rtp(p), Rtp(q)];
    assert [Rtp(p), Rtp(q)] + [Rtp(u)] == [Rtp(p), Rtp(q), Rtp(u)];
  }

  lemma {:induction false} NoRestartYet(es: seq<Event>)
    requires forall i :: 0 <= i < |es| ==> es[i].Rtp?
    ensures RestartsNear(es)
  {
    if es != [] {
      NoRestartYet(es[..|es| - 1]);
    }
  }

  /** Exactly half a circle ahead: number 32769 is then behind the frontier, its packet is cached as
      number -32767 and handed on as 32769. */
  lemma HalfCircleAliases() returns (es: seq<Event>, start: Seq16)
    ensures RestartsAt(es, start, 0x8000) && Aliases(es + [KeyFrame(start)])
  {
    es, start := [Rtp(At(0)), Rtp(At(32768)), Rtp(At(32769))], 32768;
    NoRestartYet(es);
    HalfCircleOnRing();
    HalfCircleOnMap();
    RunThree(At(0), At(32768), At(32769));
    DifferentCounts(es, KeyFrame(start));
  }

  lemma DifferentCounts(es: seq<Event>, e: Event)
    requires |Step(Run(es), e).sent| != |IdealStep(IdealRun(es), e).sent|
    ensures Aliases(es + [e])
  {
    RunOne(es, e);
  }

  lemma HalfCircleOnRing()
    ensures var s := OnPacket(OnPacket(OnPacket(INITIAL, At(0)), At(32768)), At(32769));
            |OnKeyFrame(s, 32768).sent| == 3
  {
    var s1 := OnPacket(INITIAL, At(0));
    var s2 := OnPacket(s1, At(32768));
    assert s2 == s1.(cache := s1.cache[0 := Some(At(32768))]);
    var s := OnPacket(s2, At(32769));
    assert s == s2.(cache := s2.cache[1 := Some(At(32769))]);
    assert Probe(s.cache, 32768, 0) == Some(At(32768)) && Probe(s.cache, 32768, 1) == Some(At(32769));
    assert Probe(s.cache, 32768, 2) == None;
    RunLengthUnique(s.cache, 32768, 2, 2049);
  }

  lemma HalfCircleOnMap()
    ensures var r := IdealPacket(IdealPacket(IdealPacket(IDEAL_INITIAL, At(0)), At(32768)), At(32769));
            r.started && r.frontier == 0 && Nearest(0, 32768) == 32768 && |IdealKeyFrame(r, 32768).sent| == 2
  {
    var r1 := IdealPacket(IDEAL_INITIAL, At(0));
    assert r1.store == map[0 := At(0)];
    var r2 := IdealPacket(r1, At(32768));
    assert r2.store == map[32768 := At(32768)];
    var r := IdealPacket(r2, At(32769));
    assert r.store == map[32768 := At(32768), -32767 := At(32769)];
    BatchEnds(r.store, 32768, 1);
  }

  /** Beyond the bound every distance has a history that makes the ring alias. */
  lemma FarRestartAliases(d: int) returns (es: seq<Event>, start: Seq16)
    requires 28673 < d <= 0x8000
    ensures RestartsAt(es, start, d) && Aliases(es + [KeyFrame(start)])
  {
    if d == 0x8000 {
      es, start := HalfCircleAliases();
      return;
    }
    var f := if d >= 30721 then 65536 - d else 34815;
    var n := f + d;
    es, start := History(f, n, 65536 - n), Low(n);
    AfterBurst(f, n, 65536 - n);
    NearestRecovers(f, n);
    RingRunsOn(Run(es).cache, n);
    MapStops(IdealRun(es).store, n);
    DifferentCounts(es, KeyFrame(start));
  }
}
