/** Receiver statistics of one SSRC: the loss ledger with restart detection, the fixed-point jitter
    average and the report block (section 6.4.1 and appendices A.3 and A.8 of RFC 3550). */
module StreamStat {
  import opened Bytes
  import opened Options
  import opened SeqNum

  const MAX_REORDERING_THRESHOLD := 450
  const STREAM_STAT_TIMEOUT_MS := 8000
  const MAX_CUMULATIVE_LOST := 0x7F_FFFF
  const MAX_DEVIATION := 450000

  function U32(x: int): Uint32 {
    x % 0x1_0000_0000
  }

  /** Reinterpretation of the low 32 bits as a signed number. */
  function I32(x: int): int {
    if U32(x) < 0x8000_0000 then U32(x) else U32(x) - 0x1_0000_0000
  }

  /** Integer division that truncates toward zero; Dafny's own rounds down. */
  function TruncDiv(a: int, b: int): int
    requires b > 0
  {
    if a >= 0 then a / b else -(-a / b)
  }

  datatype Packet = Packet(seqNum: Seq16, timestamp: Uint32, frequency: nat)

  /** The unwrapper: the number congruent to `s` nearest to the last one, never wrapping back below 0. */
  function Unwrap(last: Option<int>, s: Seq16): int {
    match last
    case None => s
    case Some(l) =>
      var delta := s - Low(l);
      if AheadOf(s, Low(l)) then l + if delta < 0 then delta + 0x1_0000 else delta
      else if delta > 0 && l + delta - 0x1_0000 >= 0 then l + delta - 0x1_0000
      else l + delta
  }

  datatype Stat = Stat(packets: nat, suspect: Option<Seq16>, unwrapped: Option<int>,
                       loss: int, first: int, max: int,
                       lastReportMax: int, lastReportLoss: int, offset: int, capped: bool,
                       lastTimestamp: Uint32, lastTimeMs: int, jitterQ4: Uint32)
  {
    predicate Received() { first >= 0 }
  }

  const INITIAL := Stat(0, None, None, 0, -1, -1, -1, 0, 0, false, 0, 0, 0)

  /** How a packet is taken: the first one, the confirmation of a restart, a suspected restart, one
      that advances the frontier, or a late one. */
  datatype Kind = First | Restart | Suspect | Advance | Late

  function Classify(st: Stat, p: Packet): Kind {
    if !st.Received() then First
    else Judge(st.suspect, st.max, Unwrap(st.unwrapped, p.seqNum), p.seqNum)
  }

  /** The verdict on packet number `n`, on the wire `s`, once a first packet has come. */
  function Judge(suspect: Option<Seq16>, max: int, n: int, s: Seq16): Kind {
    if suspect.Some? && s == Low(suspect.value + 1) then Restart
    else if n - max > MAX_REORDERING_THRESHOLD || max - n > MAX_REORDERING_THRESHOLD then Suspect
    else if n > max then Advance
    else Late
  }

  /** Elapsed milliseconds in timestamp units, as 32 bits hold them. */
  function ArrivalTicks(elapsedMs: int, frequency: nat): Uint32 {
    U32(TruncDiv(elapsedMs * frequency, 1000))
  }

  /** D(i,j): how much more time passed on arrival than between the timestamps. */
  function TransitChange(elapsedMs: int, p: Packet, lastTimestamp: Uint32): int {
    I32(ArrivalTicks(elapsedMs, p.frequency) - U32(p.timestamp - lastTimestamp))
  }

  /** |D(i,j)| of appendix A.8, in timestamp units; std::abs of the least 32-bit number, which C++
      leaves undefined, is taken as the mathematical absolute value. */
  function Deviation(st: Stat, p: Packet, now: int): nat {
    var d := TransitChange(now - st.lastTimeMs, p, st.lastTimestamp);
    if d < 0 then -d else d
  }

  /** The new average in units of 1/16, in 32-bit arithmetic. */
  function Smoothed(jitterQ4: Uint32, deviation: nat): Uint32 {
    var diff := I32(deviation * 16 - jitterQ4);
    U32(jitterQ4 + I32(diff + 8) / 16)
  }

  /** The jitter sample a packet contributes, if any. */
  function Sample(st: Stat, p: Packet, now: int): Option<nat> {
    var d := Deviation(st, p, now);
    if Classify(st, p) in {Suspect, Late} || p.timestamp == st.lastTimestamp || st.packets + 1 <= 1
       || d >= MAX_DEVIATION
    then None else Some(d)
  }

  function OnPacket(st: Stat, p: Packet, now: int): Stat {
    var n := Unwrap(st.unwrapped, p.seqNum);
    var kind := Classify(st, p);
    var st1 := st.(packets := st.packets + 1, suspect := if kind.Suspect? then Some(p.seqNum) else
                                                         if kind.First? then st.suspect else None);
    if kind.Suspect? then st1
    else if kind.Late? then st1.(loss := st.loss - 1)
    else
      var max := match kind case First => n - 1 case Restart => n - 2 case _ => st.max;
      var jitter := match Sample(st, p, now) case Some(d) => Smoothed(st.jitterQ4, d) case None => st.jitterQ4;
      st1.(first := if kind.First? then n else st.first, max := n, unwrapped := Some(n),
           loss := st.loss - 1 + (n - max), jitterQ4 := jitter,
           lastTimestamp := p.timestamp, lastTimeMs := now)
  }

  datatype Block = Block(ssrc: Uint32, fractionLost: nat, cumulativeLost: nat, extHighestSeqNum: Uint32,
                         jitter: nat)

  predicate Reports(st: Stat, now: int) {
    now - st.lastTimeMs <= STREAM_STAT_TIMEOUT_MS && st.Received()
  }

  function Expected(st: Stat): int { st.max - st.lastReportMax }

  function Lost(st: Stat): int { st.loss - st.lastReportLoss }

  /** The 8-bit fraction field of the report about to be made. */
  function FractionLost(st: Stat): nat {
    if Expected(st) > 0 && Lost(st) > 0 then (255 * Lost(st) / Expected(st)) % 256 else 0
  }

  function Offset(st: Stat): int {
    if st.loss + st.offset < 0 then -st.loss else st.offset
  }

  function CumulativeLost(st: Stat): nat {
    var lost := if st.loss + st.offset < 0 then 0 else st.loss + st.offset;
    if lost > MAX_CUMULATIVE_LOST then MAX_CUMULATIVE_LOST else lost
  }

  function BlockOf(ssrc: Uint32, st: Stat): Block {
    Block(ssrc, FractionLost(st), CumulativeLost(st), U32(st.max), st.jitterQ4 / 16)
  }

  function AfterReport(st: Stat): Stat {
    st.(offset := Offset(st), lastReportMax := st.max, lastReportLoss := st.loss,
        capped := st.capped || (st.loss + st.offset > MAX_CUMULATIVE_LOST))
  }

  class StreamStat {
    const ssrc: Uint32
    var packets: nat
    var suspect: Option<Seq16>
    var unwrapped: Option<int>
    var loss: int
    var first: int
    var max: int
    var lastReportMax: int
    var lastReportLoss: int
    var offset: int
    var capped: bool
    var lastTimestamp: Uint32
    var lastTimeMs: int
    var jitterQ4: Uint32

    ghost function Value(): Stat
      reads this
    {
      Stat(packets, suspect, unwrapped, loss, first, max, lastReportMax, lastReportLoss, offset, capped,
           lastTimestamp, lastTimeMs, jitterQ4)
    }

    constructor (ssrc: Uint32)
      ensures Value() == INITIAL && this.ssrc == ssrc
    {
      this.ssrc := ssrc;
      packets, suspect, unwrapped, loss, first, max := 0, None, None, 0, -1, -1;
      lastReportMax, lastReportLoss, offset, capped := -1, 0, 0, false;
      lastTimestamp, lastTimeMs, jitterQ4 := 0, 0, 0;
    }

    method UpdateCounters(p: Packet, now: int)
      modifies this
      ensures Value() == OnPacket(old(Value()), p, now)
    {
      packets := packets + 1;
      loss := loss - 1;
      var n := Unwrap(unwrapped, p.seqNum);
      if first < 0 {
        first := n;
        max := n - 1;
      } else {
        var outOfOrder := UpdateOutOfOrder(p, n);
        if outOfOrder {
          return;
        }
      }
      loss := loss + (n - max);
      max := n;
      unwrapped := Some(n);
      MeasureArrival(p, now);
    }

    /** The end of UpdateCounters: samples the jitter and remembers this arrival. */
    method MeasureArrival(p: Packet, now: int)
      modifies `jitterQ4, `lastTimestamp, `lastTimeMs
      ensures lastTimestamp == p.timestamp && lastTimeMs == now
      ensures var d := Deviation(old(Value()), p, now);
              jitterQ4 == if p.timestamp != old(lastTimestamp) && packets > 1 && d < MAX_DEVIATION
                          then Smoothed(old(jitterQ4), d) else old(jitterQ4)
    {
      if p.timestamp != lastTimestamp && packets > 1 {
        UpdateJitter(p, now);
      }
      lastTimestamp := p.timestamp;
      lastTimeMs := now;
    }

    /** Tells late and suspicious packets, which move nothing, from those that advance the frontier. */
    method UpdateOutOfOrder(p: Packet, n: int) returns (outOfOrder: bool)
      modifies `suspect, `max, `loss
      ensures var kind := Judge(old(suspect), old(max), n, p.seqNum);
              outOfOrder == (kind.Suspect? || kind.Late?) &&
              suspect == (if kind.Suspect? then Some(p.seqNum) else None) &&
              max == (if kind.Restart? then n - 2 else old(max)) &&
              loss == (if kind.Suspect? then old(loss) + 1 else old(loss))
    {
      if suspect.Some? {
        var expected := Low(suspect.value + 1);
        suspect := None;
        if p.seqNum == expected {
          max := n - 2;
          return false;
        }
      }
      if (if n >= max then n - max else max - n) > MAX_REORDERING_THRESHOLD {
        suspect := Some(p.seqNum);
        loss := loss + 1;
        return true;
      }
      if n > max {
        return false;
      }
      return true;
    }

    method UpdateJitter(p: Packet, now: int)
      modifies `jitterQ4
      ensures var d := Deviation(old(Value()), p, now);
              jitterQ4 == if d < MAX_DEVIATION then Smoothed(old(jitterQ4), d) else old(jitterQ4)
    {
      var deviation := TransitChange(now - lastTimeMs, p, lastTimestamp);
      if deviation < 0 {
        deviation := -deviation;
      }
      if deviation < MAX_DEVIATION {
        jitterQ4 := Smoothed(jitterQ4, deviation);
      }
    }

    method MaybeAppendReportBlockAndReset(result: seq<Block>, now: int) returns (blocks: seq<Block>)
      modifies this
      ensures var st := old(Value());
              if Reports(st, now) then blocks == result + [BlockOf(ssrc, st)] && Value() == AfterReport(st)
              else blocks == result && Value() == st
    {
      if now - lastTimeMs > STREAM_STAT_TIMEOUT_MS {
        return result;
      }
      if first < 0 {
        return result;
      }
      var fraction: nat := 0;
      var expectedSinceLast := max - lastReportMax;
      var lossSinceLast := loss - lastReportLoss;
      if expectedSinceLast > 0 && lossSinceLast > 0 {
        fraction := (255 * lossSinceLast / expectedSinceLast) % 256;
      }
      var packetsLost := loss + offset;
      if packetsLost < 0 {
        packetsLost := 0;
        offset := -loss;
      }
      if packetsLost > MAX_CUMULATIVE_LOST {
        capped := true;
        packetsLost := MAX_CUMULATIVE_LOST;
      }
      blocks := result + [Block(ssrc, fraction, packetsLost, U32(max), jitterQ4 / 16)];
      lastReportMax := max;
      lastReportLoss := loss;
    }
  }
}
