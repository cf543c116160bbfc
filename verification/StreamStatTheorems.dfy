/** The code keeps the receiver statistics as `StreamHistory` tells them, over every history of arrivals
    and reports; what every report block then says. */
module StreamStatTheorems {
  import opened Bytes
  import opened Options
  import opened SeqNum
  import opened StreamStat
  import opened StreamHistory

  function Step(st: Stat, e: Event): Stat {
    match e
    case Arrival(p, now) => OnPacket(st, p, now)
    case Report(now) => if Reports(st, now) then AfterReport(st) else st
  }

  function Run(es: seq<Event>): Stat {
    if es == [] then INITIAL else Step(Run(es[..|es| - 1]), es[|es| - 1])
  }

  /** The block an event makes the code append to its result, if any. */
  function Emitted(ssrc: Uint32, st: Stat, e: Event): seq<Block> {
    if e.Report? && Reports(st, e.now) then [BlockOf(ssrc, st)] else []
  }

  /** All blocks of a history. */
  function Blocks(ssrc: Uint32, es: seq<Event>): seq<Block> {
    if es == [] then []
    else Blocks(ssrc, es[..|es| - 1]) + Emitted(ssrc, Run(es[..|es| - 1]), es[|es| - 1])
  }

  // ----- the state is that of the history

  /** Every field of the code but the jitter, in terms of the history. */
  predicate Kept(st: Stat, t: Tally) {
    LedgerKept(st, t) && ArrivalsKept(st, t) && BaselinesKept(st, t)
  }

  predicate LedgerKept(st: Stat, t: Tally) {
    st.first == Origin(t.facts.epochs) && st.max == Frontier(t.facts.epochs) && st.loss == Loss(t.facts)
  }

  predicate ArrivalsKept(st: Stat, t: Tally) {
    && st.packets == t.arrivals && st.suspect == t.suspect
    && st.unwrapped == (if t.facts.epochs == [] then None else Some(st.max))
    && st.lastTimestamp == t.stamp % 0x1_0000_0000 && st.lastTimeMs == t.lastTime
  }

  predicate BaselinesKept(st: Stat, t: Tally) {
    && st.lastReportMax == LastFrontier(t.reports) && st.lastReportLoss == LastLoss(t.reports)
    && st.offset == -Lowest(t.reports) && st.capped == EverCut(t.reports)
  }

  /** The unwrapper recovers any number within half a circle of the last one, except that it never goes
      below 0. */
  lemma UnwrapRecovers(last: nat, n: int)
    requires -0x8000 < n - last < 0x8000
    ensures Unwrap(Some(last), Low(n)) == if n < 0 then n + 0x1_0000 else n
  {
    AheadIsOrder(n, last);
  }

  lemma UnwrapIsExtended(last: nat, s: Seq16)
    ensures Unwrap(Some(last), s) == Extended(last, s)
  {
  }

  /** The change of the transit time is the true one, however the 32-bit numbers wrap, as long as it fits
      32 bits itself. */
  lemma DeviationIsD(last: int, sent: int, elapsedMs: int, p: Packet)
    requires p.timestamp == (last + sent) % 0x1_0000_0000
    requires -0x8000_0000 <= Ticks(elapsedMs, p.frequency) - sent < 0x8000_0000
    ensures TransitChange(elapsedMs, p, last % 0x1_0000_0000) == Ticks(elapsedMs, p.frequency) - sent
    ensures elapsedMs >= 0 ==>
              TransitChange(elapsedMs, p, last % 0x1_0000_0000) == elapsedMs * p.frequency / 1000 - sent
  {
    TicksAre(elapsedMs, p.frequency);
    SignedDifference(Ticks(elapsedMs, p.frequency), last, sent);
  }

  lemma SignedDifference(ticks: int, last: int, sent: int)
    requires -0x8000_0000 <= ticks - sent < 0x8000_0000
    ensures I32(U32(ticks) - U32((last + sent) % 0x1_0000_0000 - last % 0x1_0000_0000)) == ticks - sent
  {
    SentAgain(last, sent);
    assert U32(U32(ticks) - U32(sent)) == U32(ticks - sent);
  }

  lemma SentAgain(last: int, sent: int)
    ensures U32((last + sent) % 0x1_0000_0000 - last % 0x1_0000_0000) == U32(sent)
  {
  }

  lemma TicksAre(elapsedMs: int, frequency: nat)
    ensures TruncDiv(elapsedMs * frequency, 1000) == Ticks(elapsedMs, frequency)
    ensures elapsedMs >= 0 ==> Ticks(elapsedMs, frequency) == elapsedMs * frequency / 1000
  {
    if elapsedMs < 0 {
      assert -(elapsedMs * frequency) == -elapsedMs * frequency;
    }
  }

  lemma MeantIs(st: Stat, t: Tally, p: Packet)
    requires Kept(st, t) && Placed(t)
    ensures Unwrap(st.unwrapped, p.seqNum) == Meant(t, p.seqNum)
  {
    if t.facts.epochs != [] {
      UnwrapIsExtended(st.max, p.seqNum);
    }
  }

  lemma KindIs(st: Stat, t: Tally, p: Packet)
    requires Kept(st, t) && Placed(t) && AllConsistent(t)
    ensures Unwrap(st.unwrapped, p.seqNum) == Meant(t, p.seqNum) && Classify(st, p) == KindOf(t, p.seqNum)
  {
    MeantIs(st, t, p);
    JudgedAlike(st, t, p, Meant(t, p.seqNum));
  }

  lemma JudgedAlike(st: Stat, t: Tally, p: Packet, n: int)
    requires Kept(st, t) && (t.facts.epochs != [] ==> Origin(t.facts.epochs) >= 0)
    requires n == Meant(t, p.seqNum) == Unwrap(st.unwrapped, p.seqNum)
    ensures Classify(st, p) == KindOf(t, p.seqNum)
  {
  }

  lemma DifferenceIs(st: Stat, t: Tally, p: Packet, now: int)
    requires Kept(st, t) && t.facts.epochs != []
    ensures Deviation(st, p, now) == Abs(Difference(t, p, now))
  {
    var sent := StampOf(t, p, now) - t.stamp;
    assert t.stamp + sent == StampOf(t, p, now);
    DeviationIsD(t.stamp, sent, now - t.lastTime, p);
  }

  lemma SampleIs(st: Stat, t: Tally, p: Packet, now: int)
    requires Kept(st, t) && Placed(t) && AllConsistent(t)
    requires t.facts.epochs != [] ==> t.arrivals > 0
    ensures Sample(st, p, now) == if Measured(t, p, now) then Some(Abs(Difference(t, p, now))) else None
  {
    KindIs(st, t, p);
    if t.facts.epochs != [] {
      DifferenceIs(st, t, p, now);
    }
  }

  lemma StampIs(t: Tally, p: Packet, now: int)
    ensures StampOf(t, p, now) % 0x1_0000_0000 == p.timestamp
  {
  }

  /** What a packet taken as number `n` does to the ledger. */
  predicate Moved(st: Stat, st': Stat, kind: Kind, n: int) {
    match kind
    case First => st'.first == n && st'.max == n && st'.loss == st.loss
    case Restart => st'.first == st.first && st'.max == n && st'.loss == st.loss + 1
    case Suspect => st'.first == st.first && st'.max == st.max && st'.loss == st.loss
    case Advance => st'.first == st.first && st'.max == n && st'.loss == st.loss + (n - st.max) - 1
    case Late => st'.first == st.first && st'.max == st.max && st'.loss == st.loss - 1
  }

  lemma OnPacketMoves(st: Stat, p: Packet, now: int)
    ensures Moved(st, OnPacket(st, p, now), Classify(st, p), Unwrap(st.unwrapped, p.seqNum))
  {
  }

  lemma LedgerMoves(st: Stat, st': Stat, f: Facts, f': Facts, kind: Kind, n: int)
    requires st.first == Origin(f.epochs) && st.max == Frontier(f.epochs) && st.loss == Loss(f)
    requires Moved(st, st', kind, n) && (kind.First? <==> f.epochs == []) && (f.epochs == [] ==> f.accepted == 0)
    requires f'.epochs == EpochsAfter(f.epochs, kind, n)
    requires f'.accepted == if kind.Suspect? then f.accepted else f.accepted + 1
    ensures st'.first == Origin(f'.epochs) && st'.max == Frontier(f'.epochs) && st'.loss == Loss(f')
  {
    EpochsGrow(f.epochs, kind, n);
  }

  lemma LedgerArrival(st: Stat, t: Tally, p: Packet, now: int)
    requires Kept(st, t) && Placed(t) && AllConsistent(t)
    ensures LedgerKept(OnPacket(st, p, now), Noted(t, p, now))
  {
    KindIs(st, t, p);
    OnPacketMoves(st, p, now);
    FactsOfNoted(t, p, now);
    LedgerMoves(st, OnPacket(st, p, now), t.facts, FactsAfter(t, p, now), KindOf(t, p.seqNum), Meant(t, p.seqNum));
  }

  lemma ArrivalsArrival(st: Stat, t: Tally, p: Packet, now: int)
    requires Kept(st, t) && Placed(t) && AllConsistent(t)
    ensures ArrivalsKept(OnPacket(st, p, now), Noted(t, p, now))
  {
    KindIs(st, t, p);
    StampIs(t, p, now);
  }

  lemma KeptArrival(st: Stat, t: Tally, p: Packet, now: int)
    requires Kept(st, t) && Placed(t) && AllConsistent(t)
    ensures Kept(OnPacket(st, p, now), Noted(t, p, now))
  {
    LedgerArrival(st, t, p, now);
    ArrivalsArrival(st, t, p, now);
    BaselinesArrival(st, t, p, now);
  }

  lemma BaselinesArrival(st: Stat, t: Tally, p: Packet, now: int)
    requires BaselinesKept(st, t)
    ensures BaselinesKept(OnPacket(st, p, now), Noted(t, p, now))
  {
    BaselinesUntouched(st, p, now);
    FactsOfNoted(t, p, now);
  }

  lemma BaselinesUntouched(st: Stat, p: Packet, now: int)
    ensures var st' := OnPacket(st, p, now);
            st'.lastReportMax == st.lastReportMax && st'.lastReportLoss == st.lastReportLoss &&
            st'.offset == st.offset && st'.capped == st.capped
  {
  }

  lemma KeptReport(st: Stat, t: Tally, now: int)
    requires Kept(st, t) && AllConsistent(t)
    ensures Reports(st, now) <==> ReportDue(t, now)
    ensures Kept(Step(st, Report(now)), TallyStep(t, Report(now)))
  {
    LowestAppend(t.reports, t.facts);
  }

  lemma KeptStep(st: Stat, t: Tally, e: Event)
    requires Kept(st, t) && Placed(t) && AllConsistent(t)
    ensures Kept(Step(st, e), TallyStep(t, e))
  {
    if e.Arrival? {
      KeptArrival(st, t, e.p, e.now);
    } else {
      KeptReport(st, t, e.now);
    }
  }

  lemma LedgerFirst()
    ensures LedgerKept(INITIAL, NO_TALLY)
  {
  }

  lemma ArrivalsFirst()
    ensures ArrivalsKept(INITIAL, NO_TALLY)
  {
  }

  lemma BaselinesFirst()
    ensures BaselinesKept(INITIAL, NO_TALLY)
  {
  }

  lemma LastStep(es: seq<Event>)
    requires es != []
    ensures Run(es) == Step(Run(es[..|es| - 1]), es[|es| - 1])
    ensures Tallied(es) == TallyStep(Tallied(es[..|es| - 1]), es[|es| - 1])
  {
  }

  lemma KeptNext(st: Stat, t: Tally, e: Event, st': Stat, t': Tally)
    requires Kept(st, t) && Placed(t) && AllConsistent(t) && st' == Step(st, e) && t' == TallyStep(t, e)
    ensures Kept(st', t')
  {
    KeptStep(st, t, e);
  }

  lemma {:induction false} KeptRun(es: seq<Event>)
    ensures Kept(Run(es), Tallied(es))
  {
    if es == [] {
      LedgerFirst();
      ArrivalsFirst();
      BaselinesFirst();
    } else {
      var before, e := es[..|es| - 1], es[|es| - 1];
      KeptRun(before);
      ConsistentRun(before);
      LastStep(es);
      KeptNext(Run(before), Tallied(before), e, Run(es), Tallied(es));
    }
  }

  /** Every counter is that of the history: the ledger is the sum of the lengths of the epochs minus the
      packets accepted, and plainly max - first + 1 - received if no restart was suspected. */
  lemma {:induction false} LossLedger(es: seq<Event>)
    ensures var st, t := Run(es), Tallied(es);
            Kept(st, t) && st.loss == Numbers(t.facts.epochs) - t.facts.accepted &&
            (t.facts.accepted == t.arrivals && st.Received() ==> st.loss == st.max - st.first + 1 - st.packets)
  {
    KeptRun(es);
    UnsuspectedRun(es);
    if |Tallied(es).facts.epochs| == 1 {
      NumbersOfOne(Tallied(es).facts.epochs);
    }
  }

  // ----- jitter

  /** One smoothing step in 32-bit fixed point, compared with the real average x (in units of 1/16). */
  lemma SmoothedTracks(q: Uint32, x: real, d: nat)
    requires q <= 16 * (MAX_DEVIATION - 1) && d < MAX_DEVIATION
    requires -8.0 <= q as real - x <= 8.0
    ensures Smoothed(q, d) == q + (16 * d - q + 8) / 16 <= 16 * (MAX_DEVIATION - 1)
    ensures var x' := x + (16.0 * d as real - x) / 16.0;
            -8.0 <= Smoothed(q, d) as real - x' <= 8.0
  {
    SmoothedExact(q, d);
    RoundedStep(q, 16 * d - q, x, (16 * d - q + 8) / 16);
  }

  lemma SmoothedExact(q: Uint32, d: nat)
    requires q <= 16 * (MAX_DEVIATION - 1) && d < MAX_DEVIATION
    ensures Smoothed(q, d) == q + (16 * d - q + 8) / 16 <= 16 * (MAX_DEVIATION - 1)
  {
    var diff := 16 * d - q;
    var step := (diff + 8) / 16;
    assert I32(diff) == diff && I32(diff + 8) == diff + 8;
    assert 0 <= q + step <= 16 * (MAX_DEVIATION - 1);
  }

  lemma RoundedStep(q: int, diff: int, x: real, step: int)
    requires -8.0 <= q as real - x <= 8.0 && step == (diff + 8) / 16
    ensures -8.0 <= (q + step) as real - (x + ((q + diff) as real - x) / 16.0) <= 8.0
  {
    assert 16 * step <= diff + 8 < 16 * step + 16;
    var s := step as real;
    assert 16.0 * s <= (diff + 8) as real < 16.0 * s + 16.0;
  }

  predicate Tracks(jitterQ4: Uint32, jitter: real) {
    jitterQ4 <= 16 * (450000 - 1) && -8.0 <= jitterQ4 as real - 16.0 * jitter <= 8.0
  }

  lemma JitterArrival(st: Stat, t: Tally, p: Packet, now: int)
    requires Kept(st, t) && Placed(t) && AllConsistent(t) && (t.facts.epochs != [] ==> t.arrivals > 0)
    requires Tracks(st.jitterQ4, t.facts.jitter)
    ensures Tracks(OnPacket(st, p, now).jitterQ4, JitterAfter(t, p, now))
  {
    SampleIs(st, t, p, now);
    KindIs(st, t, p);
    if Measured(t, p, now) {
      SmoothedTracks(st.jitterQ4, 16.0 * t.facts.jitter, Abs(Difference(t, p, now)));
    }
  }

  lemma {:induction false} SomeArrived(es: seq<Event>)
    ensures Tallied(es).facts.epochs != [] ==> Tallied(es).arrivals > 0
  {
    if es != [] {
      SomeArrived(es[..|es| - 1]);
    }
  }

  /** The fixed-point jitter never drifts from the real-valued average by more than 8/16 of a tick, and
      never leaves the range in which the 32-bit arithmetic is exact. */
  lemma {:induction false} JitterTracksAverage(es: seq<Event>)
    ensures Tracks(Run(es).jitterQ4, Tallied(es).facts.jitter)
  {
    if es != [] {
      var before, e := es[..|es| - 1], es[|es| - 1];
      JitterTracksAverage(before);
      KeptRun(before);
      ConsistentRun(before);
      SomeArrived(before);
      if e.Arrival? {
        JitterArrival(Run(before), Tallied(before), e.p, e.now);
        FactsOfNoted(Tallied(before), e.p, e.now);
      }
    }
  }

  // ----- what the blocks say

  /** Block `i` states loss, frontier and jitter at the time of its report. */
  predicate Says(b: Block, ssrc: Uint32, reports: seq<Facts>, i: nat)
    requires i < |reports|
  {
    && b.ssrc == ssrc
    && b.cumulativeLost == Capped(Above(reports[..i], reports[i])) >= 0
    && b.extHighestSeqNum == Frontier(reports[i].epochs) % 0x1_0000_0000
    && -1.4375 <= b.jitter as real - reports[i].jitter <= 0.5
    && Share(b.fractionLost, LostSince(reports[..i], reports[i]), ExpectedSince(reports[..i], reports[i]))
  }

  /** The low 8 bits of the rounded-down 255ths, or 0 if there is no loss to speak of. */
  predicate Share(fraction: nat, lost: int, expected: int) {
    && fraction < 256
    && (lost <= 0 || expected <= 0 ==> fraction == 0)
    && (lost > 0 && expected > 0 ==> (255 * lost / expected - fraction) % 256 == 0)
  }

  lemma FractionIs(st: Stat)
    ensures Share(FractionLost(st), Lost(st), Expected(st))
  {
    if Lost(st) > 0 && Expected(st) > 0 {
      var q := 255 * Lost(st) / Expected(st);
      assert q % 256 == q - 256 * (q / 256);
    }
  }

  lemma Truncated(q: Uint32, jitter: real)
    requires Tracks(q, jitter)
    ensures -1.4375 <= (q / 16) as real - jitter <= 0.5
  {
    var j := q / 16;
    assert 16 * j <= q <= 16 * j + 15;
    assert 16.0 * j as real <= q as real <= 16.0 * j as real + 15.0;
  }

  lemma BlockSays(ssrc: Uint32, st: Stat, t: Tally)
    requires Kept(st, t) && Tracks(st.jitterQ4, t.facts.jitter)
    ensures Says(BlockOf(ssrc, st), ssrc, t.reports + [t.facts], |t.reports|)
  {
    LowestAppend(t.reports, t.facts);
    PrefixesStay(t.reports, t.facts);
    FractionIs(st);
    Truncated(st.jitterQ4, t.facts.jitter);
  }

  lemma SaysStays(b: Block, ssrc: Uint32, reports: seq<Facts>, f: Facts, i: nat)
    requires i < |reports| && Says(b, ssrc, reports, i)
    ensures Says(b, ssrc, reports + [f], i)
  {
    PrefixesStay(reports, f);
  }

  predicate AllSay(blocks: seq<Block>, ssrc: Uint32, reports: seq<Facts>) {
    |blocks| == |reports| && forall i :: 0 <= i < |reports| ==> Says(blocks[i], ssrc, reports, i)
  }

  lemma AllSayNext(blocks: seq<Block>, b: Block, ssrc: Uint32, reports: seq<Facts>, f: Facts)
    requires AllSay(blocks, ssrc, reports) && Says(b, ssrc, reports + [f], |reports|)
    ensures AllSay(blocks + [b], ssrc, reports + [f])
  {
    forall i | 0 <= i < |reports| ensures Says(blocks[i], ssrc, reports + [f], i) {
      SaysStays(blocks[i], ssrc, reports, f, i);
    }
  }

  lemma BlocksNext(ssrc: Uint32, blocks: seq<Block>, st: Stat, t: Tally, e: Event)
    requires AllSay(blocks, ssrc, t.reports)
    requires Kept(st, t) && AllConsistent(t) && Tracks(st.jitterQ4, t.facts.jitter)
    ensures AllSay(blocks + Emitted(ssrc, st, e), ssrc, TallyStep(t, e).reports)
  {
    assert blocks + [] == blocks;
    if e.Report? {
      KeptReport(st, t, e.now);
      if ReportDue(t, e.now) {
        BlockSays(ssrc, st, t);
        AllSayNext(blocks, BlockOf(ssrc, st), ssrc, t.reports, t.facts);
      }
    }
  }

  /** A report is made exactly if a packet has come and the frontier moved in the last eight seconds; and
      every block ever sent says what the history says. */
  lemma {:induction false} ReportedBlocks(ssrc: Uint32, es: seq<Event>)
    ensures AllSay(Blocks(ssrc, es), ssrc, Tallied(es).reports)
  {
    if es != [] {
      var before := es[..|es| - 1];
      ReportedBlocks(ssrc, before);
      KeptRun(before);
      JitterTracksAverage(before);
      ConsistentRun(before);
      BlocksNext(ssrc, Blocks(ssrc, before), Run(before), Tallied(before), es[|es| - 1]);
    }
  }

  /** Report `i` as the history has it: what had been reported before, and the facts reported. */
  predicate ReportIs(es: seq<Event>, i: nat, before: seq<Facts>, f: Facts) {
    var reports := Tallied(es).reports;
    i < |reports| && before == reports[..i] && f == reports[i]
  }

  lemma ReportSays(ssrc: Uint32, es: seq<Event>, i: nat, before: seq<Facts>, f: Facts)
    requires ReportIs(es, i, before, f)
    ensures |Blocks(ssrc, es)| == |Tallied(es).reports|
    ensures Says(Blocks(ssrc, es)[i], ssrc, Tallied(es).reports, i)
    ensures Consistent(before, f) && f.epochs != []
  {
    ReportedBlocks(ssrc, es);
    ConsistentRun(es);
  }

  // ----- the fraction lost

  /** The 8-bit field is the exact 255ths of the loss exactly if 255 times the loss stays below 256 times
      what was expected. */
  lemma FractionExact(fraction: nat, lost: int, expected: int)
    requires Share(fraction, lost, expected) && lost > 0 && expected > 0
    ensures fraction == 255 * lost / expected <==> 255 * lost < 256 * expected
  {
    ShareOf255(255 * lost, expected);
  }

  lemma ShareOf255(a: int, b: int)
    requires a >= 0 && b > 0
    ensures (a / b) % 256 == a / b <==> a < 256 * b
  {
    var q := a / b;
    assert a == b * q + a % b;
    if q >= 256 {
      MulMonotone(b, 256, q);
    } else {
      MulMonotone(b, q, 255);
    }
  }

  /** The fraction field of a report is the exact one exactly if restarts went back no further than the
      packets accepted meanwhile and a 255th of what was expected make up for; the loss stays within what
      was expected exactly if the packets alone do, in particular if no restart went back. */
  lemma {:induction false} FractionFits(ssrc: Uint32, es: seq<Event>, i: nat, before: seq<Facts>, f: Facts)
    requires ReportIs(es, i, before, f)
    ensures i < |Blocks(ssrc, es)|
    ensures var fraction, lost, expected := Blocks(ssrc, es)[i].fractionLost, LostSince(before, f), ExpectedSince(before, f);
            if lost > 0 && expected > 0 then fraction == 255 * lost / expected <==> 255 * Excess(before, f) < expected
            else fraction == 0
    ensures LostSince(before, f) <= ExpectedSince(before, f) <==> Excess(before, f) <= 0
    ensures !f.wentBack ==> Excess(before, f) <= 0
  {
    ReportSays(ssrc, es, i, before, f);
    LostIsExcess(before, f);
    var lost, expected := LostSince(before, f), ExpectedSince(before, f);
    if lost > 0 && expected > 0 {
      FractionExact(Blocks(ssrc, es)[i].fractionLost, lost, expected);
    }
  }

  lemma MulMonotone(b: int, x: int, y: int)
    requires b > 0 && x <= y
    ensures b * x <= b * y
  {
  }

  // ----- the reported cumulative loss

  /** Report `i` carries the ledger shifted up by its deepest negative value so far, cut at 2^23 - 1, hence
      a valid non-negative field. */
  lemma ReportedLoss(ssrc: Uint32, es: seq<Event>, i: nat, before: seq<Facts>, f: Facts)
    requires ReportIs(es, i, before, f)
    ensures i < |Blocks(ssrc, es)|
    ensures var reported := Blocks(ssrc, es)[i].cumulativeLost;
            reported == Capped(Loss(f) - Lower(Lowest(before), Loss(f))) && reported <= 0x7F_FFFF
  {
    ReportSays(ssrc, es, i, before, f);
  }

  /** Where the ledger of a later report stands above the deepest value, itself included, up to an earlier
      one. */
  lemma {:induction false} LowestFalls(reports: seq<Facts>, i: nat)
    requires i < |reports|
    ensures Lowest(reports) <= Lowest(reports[..i + 1]) == Lower(Lowest(reports[..i]), Loss(reports[i]))
    decreases |reports|
  {
    if i == |reports| - 1 {
      assert reports[..i + 1] == reports;
    } else {
      var front := reports[..|reports| - 1];
      LowestFalls(front, i);
      assert front[..i + 1] == reports[..i + 1] && front[..i] == reports[..i];
    }
  }

  /** Differences between two reports below the cap are the true differences exactly when no new low
      came in between. */
  lemma {:induction false} ReportedDifference(ssrc: Uint32, es: seq<Event>, i: nat, j: nat)
    requires i < j < |Tallied(es).reports|
    ensures j < |Blocks(ssrc, es)|
    ensures var reports := Tallied(es).reports;
            var ri, rj := Blocks(ssrc, es)[i].cumulativeLost, Blocks(ssrc, es)[j].cumulativeLost;
            ri < 0x7F_FFFF && rj < 0x7F_FFFF ==>
              (rj - ri == Loss(reports[j]) - Loss(reports[i]) <==> Lowest(reports[..j + 1]) == Lowest(reports[..i + 1]))
  {
    CumulativeIs(ssrc, es, i);
    CumulativeIs(ssrc, es, j);
  }

  lemma CumulativeIs(ssrc: Uint32, es: seq<Event>, i: nat)
    requires i < |Tallied(es).reports|
    ensures i < |Blocks(ssrc, es)|
    ensures var reports := Tallied(es).reports;
            Blocks(ssrc, es)[i].cumulativeLost == Capped(Loss(reports[i]) - Lowest(reports[..i + 1]))
  {
    var reports := Tallied(es).reports;
    ReportedLoss(ssrc, es, i, reports[..i], reports[i]);
    LowestFalls(reports, i);
  }

  /** The reported loss falls from one report to the next exactly if the ledger falls while the earlier
      report is above 0 and the later one, measured from the low of the earlier, below the cap. */
  lemma {:induction false} ReportFalls(ssrc: Uint32, es: seq<Event>, i: nat)
    requires i + 1 < |Tallied(es).reports|
    ensures i + 1 < |Blocks(ssrc, es)|
    ensures var reports, blocks := Tallied(es).reports, Blocks(ssrc, es);
            blocks[i + 1].cumulativeLost < blocks[i].cumulativeLost <==>
              Loss(reports[i + 1]) < Loss(reports[i]) && blocks[i].cumulativeLost > 0 &&
              Loss(reports[i + 1]) - Lowest(reports[..i + 1]) < 0x7F_FFFF
  {
    var reports := Tallied(es).reports;
    ReportedLoss(ssrc, es, i, reports[..i], reports[i]);
    ReportedLoss(ssrc, es, i + 1, reports[..i + 1], reports[i + 1]);
    LowestFalls(reports, i);
  }

  // ----- widths

  /** The ledger fits the 32 bits of the code for the first 4782813 accepted packets, and the product in
      the fraction does in every interval of at most 18756. */
  lemma {:induction false} ThirtyTwoBitsSuffice(es: seq<Event>, st: Stat, t: Tally)
    requires st == Run(es) && t == Tallied(es)
    ensures t.facts.accepted <= 4782813 ==> -0x8000_0000 <= st.loss < 0x8000_0000
    ensures t.facts.accepted - LastAccepted(t.reports) <= 18756 ==> 255 * Lost(st) < 0x8000_0000
  {
    KeptRun(es);
    ConsistentRun(es);
    LedgerBounds(st, t.reports, t.facts);
  }

  lemma LedgerBounds(st: Stat, before: seq<Facts>, f: Facts)
    requires Consistent(before, f) && st.loss == Loss(f) && st.lastReportLoss == LastLoss(before)
    ensures 0 <= st.loss + f.accepted && st.loss <= 449 * f.accepted && Lost(st) <= 449 * (f.accepted - LastAccepted(before))
  {
  }

  // ----- where the obvious claims stop

  lemma Reach(es: seq<Event>, e: Event, st: Stat)
    requires Step(Run(es), e) == st
    ensures Run(es + [e]) == st
  {
    assert (es + [e])[..|es|] == es;
  }

  function At(s: Seq16): Event { Arrival(Packet(s, 0, 90000), 0) }

  /** A state reached without jitter samples, at time 0. */
  function Plain(packets: nat, suspect: Option<Seq16>, loss: int, first: int, max: int, unwrapped: int,
                 lastReportMax: int, lastReportLoss: int): Stat {
    Stat(packets, suspect, Some(unwrapped), loss, first, max, lastReportMax, lastReportLoss, 0, false, 0, 0, 0)
  }

  lemma FirstAt(s: Seq16)
    ensures Run([At(s)]) == Plain(1, None, 0, s, s, s, -1, 0)
  {
    assert [At(s)][..0] == [];
  }

  lemma UnwrapNear(last: nat, s: Seq16)
    requires last < 0x1_0000 && s - 0x8000 < last < s + 0x8000
    ensures Unwrap(Some(last), s) == s
  {
    AheadIsOrder(s, last);
  }

  lemma AdvanceAt(es: seq<Event>, k: nat, loss: int, first: nat, max: nat, lrm: int, lrl: int, s: Seq16)
    requires Run(es) == Plain(k, None, loss, first, max, max, lrm, lrl)
    requires max < s <= max + MAX_REORDERING_THRESHOLD
    ensures Run(es + [At(s)]) == Plain(k + 1, None, loss + (s - max - 1), first, s, s, lrm, lrl)
  {
    UnwrapNear(max, s);
    Reach(es, At(s), Plain(k + 1, None, loss + (s - max - 1), first, s, s, lrm, lrl));
  }

  lemma LateAt(es: seq<Event>, k: nat, loss: int, first: nat, max: Seq16, lrm: int, lrl: int, s: Seq16)
    requires Run(es) == Plain(k, None, loss, first, max, max, lrm, lrl)
    requires s < max <= s + MAX_REORDERING_THRESHOLD
    ensures Run(es + [At(s)]) == Plain(k + 1, None, loss - 1, first, max, max, lrm, lrl)
  {
    UnwrapNear(max, s);
    Reach(es, At(s), Plain(k + 1, None, loss - 1, first, max, max, lrm, lrl));
  }

  lemma SuspectAt(es: seq<Event>, k: nat, loss: int, first: nat, max: Seq16, lrm: int, lrl: int, s: Seq16)
    requires Run(es) == Plain(k, None, loss, first, max, max, lrm, lrl)
    requires s + MAX_REORDERING_THRESHOLD < max < s + 0x8000
    ensures Run(es + [At(s)]) == Plain(k + 1, Some(s), loss, first, max, max, lrm, lrl)
  {
    UnwrapNear(max, s);
    Reach(es, At(s), Plain(k + 1, Some(s), loss, first, max, max, lrm, lrl));
  }

  /** A packet with the timestamp of the one before contributes no jitter sample. */
  lemma NoSample(st: Stat, s: Seq16)
    requires st.lastTimestamp == 0
    ensures Sample(st, Packet(s, 0, 90000), 0) == None
  {
  }

  lemma RestartPacket(k: nat, loss: int, first: nat, max: Seq16, lrm: int, lrl: int, s: Seq16)
    requires s + MAX_REORDERING_THRESHOLD < max < s + 0x8000
    ensures OnPacket(Plain(k, Some(s), loss, first, max, max, lrm, lrl), Packet(s + 1, 0, 90000), 0)
            == Plain(k + 1, None, loss + 1, first, s + 1, s + 1, lrm, lrl)
  {
    UnwrapNear(max, s + 1);
    NoSample(Plain(k, Some(s), loss, first, max, max, lrm, lrl), s + 1);
  }

  /** The second packet in a row well behind the frontier: a restart, charged as one loss. */
  lemma RestartAt(es: seq<Event>, k: nat, loss: int, first: nat, max: Seq16, lrm: int, lrl: int, s: Seq16)
    requires Run(es) == Plain(k, Some(s), loss, first, max, max, lrm, lrl)
    requires s + MAX_REORDERING_THRESHOLD < max < s + 0x8000
    ensures Run(es + [At(s + 1)]) == Plain(k + 1, None, loss + 1, first, s + 1, s + 1, lrm, lrl)
  {
    RestartPacket(k, loss, first, max, lrm, lrl, s);
    Reach(es, At(s + 1), Plain(k + 1, None, loss + 1, first, s + 1, s + 1, lrm, lrl));
  }

  lemma ReportAt(es: seq<Event>, k: nat, loss: nat, first: nat, max: nat, lrm: int, lrl: int)
    requires Run(es) == Plain(k, None, loss, first, max, max, lrm, lrl) && loss <= MAX_CUMULATIVE_LOST
    ensures Run(es + [Report(0)]) == Plain(k, None, loss, first, max, max, max, loss)
  {
    Reach(es, Report(0), Plain(k, None, loss, first, max, max, max, loss));
  }

  lemma ArrivalIsSilent(ssrc: Uint32, es: seq<Event>, s: Seq16)
    ensures Blocks(ssrc, es + [At(s)]) == Blocks(ssrc, es)
  {
    assert (es + [At(s)])[..|es|] == es;
  }

  lemma ReportSpeaks(ssrc: Uint32, es: seq<Event>)
    requires Reports(Run(es), 0)
    ensures Blocks(ssrc, es + [Report(0)]) == Blocks(ssrc, es) + [BlockOf(ssrc, Run(es))]
  {
    assert (es + [Report(0)])[..|es|] == es;
  }

  lemma ReachOverflow(es: seq<Event>)
    requires es == [At(1000)] + [Report(0)] + [At(1400)] + [At(1800)] + [At(2200)] + [At(1600)] + [At(1601)]
    ensures Run(es) == Plain(6, None, 1198, 1000, 1601, 1601, 1000, 0)
  {
    var e1 := [At(1000)];
    var e2 := e1 + [Report(0)];
    var e3 := e2 + [At(1400)];
    var e4 := e3 + [At(1800)];
    var e5 := e4 + [At(2200)];
    var e6 := e5 + [At(1600)];
    FirstAt(1000);
    ReportAt(e1, 1, 0, 1000, 1000, -1, 0);
    AdvanceAt(e2, 1, 0, 1000, 1000, 1000, 0, 1400);
    AdvanceAt(e3, 2, 399, 1000, 1400, 1000, 0, 1800);
    AdvanceAt(e4, 3, 798, 1000, 1800, 1000, 0, 2200);
    SuspectAt(e5, 4, 1197, 1000, 2200, 1000, 0, 1600);
    RestartAt(e6, 5, 1197, 1000, 2200, 1000, 0, 1600);
  }

  lemma OverflowBlock(ssrc: Uint32, st: Stat)
    requires st == Plain(6, None, 1198, 1000, 1601, 1601, 1000, 0)
    ensures Lost(st) == 1198 && Expected(st) == 601 && Reports(st, 0)
    ensures BlockOf(ssrc, st) == Block(ssrc, 252, 1198, 1601, 0)
  {
  }

  /** A restart that goes back can push the fraction past 8 bits: of 601 numbers expected 1198 count as
      lost, and 508/255 is reported as 252/255. */
  lemma BackwardRestartOverflowsFraction(ssrc: Uint32, es: seq<Event>)
    requires es == [At(1000)] + [Report(0)] + [At(1400)] + [At(1800)] + [At(2200)] + [At(1600)] + [At(1601)]
    ensures Blocks(ssrc, es + [Report(0)]) == Blocks(ssrc, es) + [Block(ssrc, 252, 1198, 1601, 0)]
    ensures Lost(Run(es)) == 1198 && Expected(Run(es)) == 601 && 255 * 1198 / 601 == 508
  {
    ReachOverflow(es);
    OverflowBlock(ssrc, Run(es));
    ReportSpeaks(ssrc, es);
  }

  /** The reported loss is never negative but, against the comment in the code, not monotone: two late
      packets take it from 5 back to 3. */
  lemma ReportedLossCanDrop(ssrc: Uint32, before: seq<Event>)
    requires before == [At(10)] + [At(16)]
    ensures Blocks(ssrc, before + [Report(0)] + [At(11)] + [At(12)] + [Report(0)])
            == [Block(ssrc, 75, 5, 16, 0), Block(ssrc, 0, 3, 16, 0)]
  {
    FirstAt(10);
    AdvanceAt([At(10)], 1, 0, 10, 10, -1, 0, 16);
    ReportAt(before, 2, 5, 10, 16, -1, 0);
    LateAt(before + [Report(0)], 2, 5, 10, 16, 16, 5, 11);
    LateAt(before + [Report(0)] + [At(11)], 3, 4, 10, 16, 16, 5, 12);
    assert [At(10)] == [] + [At(10)];
    ArrivalIsSilent(ssrc, [], 10);
    ArrivalIsSilent(ssrc, [At(10)], 16);
    ReportSpeaks(ssrc, before);
    ArrivalIsSilent(ssrc, before + [Report(0)], 11);
    ArrivalIsSilent(ssrc, before + [Report(0)] + [At(11)], 12);
    ReportSpeaks(ssrc, before + [Report(0)] + [At(11)] + [At(12)]);
  }
}
