/** The receiver statistics of one SSRC as an observer with unbounded numbers would keep them: which
    numbers were expected, how many packets were accepted, and the real-valued jitter of appendix A.8 of
    RFC 3550.  Nothing here looks at the state of the code. */
module StreamHistory {
  import opened Bytes
  import opened Options
  import opened SeqNum
  import opened StreamStat

  datatype Event = Arrival(p: Packet, now: int) | Report(now: int)

  /** The numbers expected between two restarts, both ends included. */
  datatype Epoch = Epoch(from: int, to: int)

  /** How many numbers the epochs have together. */
  function Numbers(epochs: seq<Epoch>): int {
    if epochs == [] then 0
    else Numbers(epochs[..|epochs| - 1]) + epochs[|epochs| - 1].to - epochs[|epochs| - 1].from + 1
  }

  function Frontier(epochs: seq<Epoch>): int {
    if epochs == [] then -1 else epochs[|epochs| - 1].to
  }

  function Origin(epochs: seq<Epoch>): int {
    if epochs == [] then -1 else epochs[0].from
  }

  /** How far restarts moved the frontier back altogether (negative: forward). */
  function Jump(epochs: seq<Epoch>): int {
    if epochs == [] then 0 else Numbers(epochs) - (Frontier(epochs) - Origin(epochs) + 1)
  }

  /** What there is to report: packets accepted, the epochs they fall in, the real-valued jitter, and
      whether a restart went back since the report before. */
  datatype Facts = Facts(accepted: nat, epochs: seq<Epoch>, jitter: real, wentBack: bool)

  /** Everything expected and not accepted. */
  function Loss(f: Facts): int {
    Numbers(f.epochs) - f.accepted
  }

  /** The facts now and at each report; beside them the packets arrived, the wire number under suspicion,
      and timestamp (unwrapped) and arrival time of the last packet that moved the frontier. */
  datatype Tally = Tally(arrivals: nat, facts: Facts, suspect: Option<Seq16>, stamp: int, lastTime: int,
                         reports: seq<Facts>)

  const NOTHING := Facts(0, [], 0.0, false)
  const NO_TALLY := Tally(0, NOTHING, None, 0, 0, [])

  /** The number meant by `s`: the nearest to the frontier, but none below 0. */
  function Extended(frontier: int, s: Seq16): int {
    if Nearest(frontier, s) < 0 then Nearest(frontier, s) + 0x1_0000 else Nearest(frontier, s)
  }

  function Meant(t: Tally, s: Seq16): int {
    if t.facts.epochs == [] then s else Extended(Frontier(t.facts.epochs), s)
  }

  /** A number more than 450 away from the frontier is suspected of a restart, which its successor on the
      wire confirms if it comes next. */
  function KindOf(t: Tally, s: Seq16): Kind {
    var n, frontier := Meant(t, s), Frontier(t.facts.epochs);
    if t.facts.epochs == [] then First
    else if t.suspect.Some? && s == (t.suspect.value + 1) % 0x1_0000 then Restart
    else if !(-450 <= n - frontier <= 450) then Suspect
    else if n > frontier then Advance
    else Late
  }

  /** The first packet opens an epoch, an advancing one extends it, and a confirmed restart opens one that
      begins with the suspected number. */
  function EpochsAfter(epochs: seq<Epoch>, kind: Kind, n: int): seq<Epoch> {
    match kind
    case First => [Epoch(n, n)]
    case Restart => epochs + [Epoch(n - 1, n)]
    case Advance => if epochs == [] then [] else epochs[..|epochs| - 1] + [Epoch(epochs[|epochs| - 1].from, n)]
    case _ => epochs
  }

  /** Milliseconds in timestamp units, cut toward zero. */
  function Ticks(elapsedMs: int, frequency: nat): int {
    if elapsedMs >= 0 then elapsedMs * frequency / 1000 else -(-elapsedMs * frequency / 1000)
  }

  /** The number with the low 32 bits `wire` that is nearest to the expected one. */
  function Unwound(expected: int, wire: Uint32): (n: int)
    ensures n % 0x1_0000_0000 == wire && -0x8000_0000 <= expected - n < 0x8000_0000
  {
    expected - ((expected - wire + 0x8000_0000) % 0x1_0000_0000 - 0x8000_0000)
  }

  /** The timestamp of `p`, unwrapped toward the one its arrival time makes us expect. */
  function StampOf(t: Tally, p: Packet, now: int): int {
    if t.facts.epochs == [] then p.timestamp else Unwound(t.stamp + Ticks(now - t.lastTime, p.frequency), p.timestamp)
  }

  /** D(i,j): how much later than the packet before it came, less how much later it was sent. */
  function Difference(t: Tally, p: Packet, now: int): int {
    Ticks(now - t.lastTime, p.frequency) - (StampOf(t, p, now) - t.stamp)
  }

  function Abs(x: int): nat {
    if x < 0 then -x else x
  }

  /** Only the first packet of each later frame counts, and no pause of 450000 units or more. */
  predicate Measured(t: Tally, p: Packet, now: int) {
    && KindOf(t, p.seqNum) in {Advance, Restart} && p.timestamp != t.stamp % 0x1_0000_0000
    && Abs(Difference(t, p, now)) < 450000
  }

  function JitterAfter(t: Tally, p: Packet, now: int): real {
    if Measured(t, p, now) then t.facts.jitter + (Abs(Difference(t, p, now)) as real - t.facts.jitter) / 16.0
    else t.facts.jitter
  }

  function FactsAfter(t: Tally, p: Packet, now: int): Facts {
    var n, kind, f := Meant(t, p.seqNum), KindOf(t, p.seqNum), t.facts;
    Facts(if kind.Suspect? then f.accepted else f.accepted + 1, EpochsAfter(f.epochs, kind, n),
          JitterAfter(t, p, now), f.wentBack || (kind.Restart? && n - 1 <= Frontier(f.epochs)))
  }

  function Noted(t: Tally, p: Packet, now: int): Tally {
    var kind := KindOf(t, p.seqNum);
    Tally(t.arrivals + 1, FactsAfter(t, p, now), if kind.Suspect? then Some(p.seqNum) else None,
          if kind.Suspect? || kind.Late? then t.stamp else StampOf(t, p, now),
          if kind.Suspect? || kind.Late? then t.lastTime else now, t.reports)
  }

  /** A report is made once a packet has come, unless nothing has moved the frontier for eight seconds. */
  predicate ReportDue(t: Tally, now: int) {
    t.facts.epochs != [] && now - t.lastTime <= 8000
  }

  function TallyStep(t: Tally, e: Event): Tally {
    match e
    case Arrival(p, now) => Noted(t, p, now)
    case Report(now) =>
      if ReportDue(t, now) then t.(facts := t.facts.(wentBack := false), reports := t.reports + [t.facts]) else t
  }

  function Tallied(es: seq<Event>): Tally {
    if es == [] then NO_TALLY else TallyStep(Tallied(es[..|es| - 1]), es[|es| - 1])
  }

  // ----- what a report should say

  function LastFrontier(before: seq<Facts>): int {
    if before == [] then -1 else Frontier(before[|before| - 1].epochs)
  }

  function LastLoss(before: seq<Facts>): int {
    if before == [] then 0 else Loss(before[|before| - 1])
  }

  /** Numbers expected since the reports before (the first interval starts at number 0 rather than at the
      first packet). */
  function ExpectedSince(before: seq<Facts>, f: Facts): int {
    Frontier(f.epochs) - LastFrontier(before)
  }

  function LostSince(before: seq<Facts>, f: Facts): int {
    Loss(f) - LastLoss(before)
  }

  /** The distance restarts went back since the reports before, less the packets accepted meanwhile. */
  function Excess(before: seq<Facts>, f: Facts): int {
    if before == [] then Jump(f.epochs) - f.accepted - Origin(f.epochs)
    else var b := before[|before| - 1]; (Jump(f.epochs) - Jump(b.epochs)) - (f.accepted - b.accepted)
  }

  function Lower(x: int, y: int): int {
    if y < x then y else x
  }

  /** The deepest negative loss among the reports, or 0. */
  function Lowest(reports: seq<Facts>): int {
    if reports == [] then 0 else Lower(Lowest(reports[..|reports| - 1]), Loss(reports[|reports| - 1]))
  }

  /** The loss above the deepest one so far. */
  function Above(before: seq<Facts>, f: Facts): int {
    Loss(f) - Lower(Lowest(before), Loss(f))
  }

  function Capped(x: int): int {
    if x > 0x7F_FFFF then 0x7F_FFFF else x
  }

  /** Some report had to be cut. */
  predicate EverCut(reports: seq<Facts>) {
    if reports == [] then false
    else EverCut(reports[..|reports| - 1]) || Above(reports[..|reports| - 1], reports[|reports| - 1]) > 0x7F_FFFF
  }

  // ----- facts about histories

  lemma NumbersLast(epochs: seq<Epoch>, e: Epoch)
    ensures Numbers(epochs + [e]) == Numbers(epochs) + e.to - e.from + 1
  {
    assert (epochs + [e])[..|epochs|] == epochs;
  }

  lemma ExtendLast(epochs: seq<Epoch>, n: int)
    requires epochs != []
    ensures var last := epochs[|epochs| - 1];
            Numbers(epochs[..|epochs| - 1] + [Epoch(last.from, n)]) == Numbers(epochs) + n - last.to
  {
    NumbersLast(epochs[..|epochs| - 1], Epoch(epochs[|epochs| - 1].from, n));
  }

  /** What a packet of each kind adds to the numbers expected. */
  lemma EpochsGrow(epochs: seq<Epoch>, kind: Kind, n: int)
    requires kind.First? <==> epochs == []
    ensures var after := EpochsAfter(epochs, kind, n);
            after != [] && Origin(after) == (if kind.First? then n else Origin(epochs)) &&
            Frontier(after) == (if kind.Suspect? || kind.Late? then Frontier(epochs) else n) &&
            Numbers(after) == match kind
                              case First => 1
                              case Restart => Numbers(epochs) + 2
                              case Advance => Numbers(epochs) + n - Frontier(epochs)
                              case _ => Numbers(epochs)
  {
    match kind
    case First => NumbersLast([], Epoch(n, n));
    case Restart => NumbersLast(epochs, Epoch(n - 1, n));
    case Advance => ExtendLast(epochs, n);
    case _ =>
  }

  lemma NumbersOfOne(epochs: seq<Epoch>)
    requires |epochs| == 1
    ensures Jump(epochs) == 0
  {
    NumbersLast([], epochs[0]);
    assert [] + [epochs[0]] == epochs;
  }

  /** Without a suspicion there is no restart. */
  predicate Unsuspected(t: Tally) {
    && t.facts.accepted <= t.arrivals
    && (t.facts.epochs == [] ==> t == NO_TALLY)
    && (t.facts.accepted == t.arrivals ==> t.suspect.None? && |t.facts.epochs| <= 1)
  }

  lemma {:induction false} UnsuspectedRun(es: seq<Event>)
    ensures Unsuspected(Tallied(es))
  {
    if es != [] {
      UnsuspectedRun(es[..|es| - 1]);
    }
  }

  function LastJump(before: seq<Facts>): int {
    if before == [] then 0 else Jump(before[|before| - 1].epochs)
  }

  function LastAccepted(before: seq<Facts>): nat {
    if before == [] then 0 else before[|before| - 1].accepted
  }

  /** What holds between a report and the one before it: a packet accepted expects at most 450 numbers,
      the first number stays, and the frontier goes back only if a restart takes it there. */
  predicate Consistent(before: seq<Facts>, f: Facts) {
    && (f.epochs == [] ==> before == [])
    && (f.epochs != [] ==> Origin(f.epochs) >= 0)
    && (before != [] ==> before[|before| - 1].epochs != [] && Origin(f.epochs) == Origin(before[|before| - 1].epochs))
    && (!f.wentBack ==> Jump(f.epochs) <= LastJump(before))
    && LastAccepted(before) <= f.accepted
    && 0 <= Numbers(f.epochs) <= 450 * f.accepted
    && LostSince(before, f) <= 449 * (f.accepted - LastAccepted(before))
  }

  /** The loss since a report is what was expected plus the excess. */
  lemma LostIsExcess(before: seq<Facts>, f: Facts)
    requires Consistent(before, f) && f.epochs != []
    ensures LostSince(before, f) == ExpectedSince(before, f) + Excess(before, f)
    ensures !f.wentBack ==> Excess(before, f) <= 0
  {
  }

  lemma MeantIsValid(t: Tally, s: Seq16)
    requires t.facts.epochs != [] ==> Frontier(t.facts.epochs) >= 0
    ensures Meant(t, s) >= 0 && Meant(t, s) % 0x1_0000 == s
  {
  }

  lemma ConsistentArrival(t: Tally, p: Packet, now: int)
    requires Consistent(t.reports, t.facts)
    requires t.facts.epochs != [] ==> Frontier(t.facts.epochs) >= 0
    requires t.facts.epochs == [] ==> t == NO_TALLY
    ensures Consistent(t.reports, FactsAfter(t, p, now))
  {
    MeantIsValid(t, p.seqNum);
    EpochsGrow(t.facts.epochs, KindOf(t, p.seqNum), Meant(t, p.seqNum));
  }

  lemma FactsOfNoted(t: Tally, p: Packet, now: int)
    ensures Noted(t, p, now).facts == FactsAfter(t, p, now) && Noted(t, p, now).reports == t.reports
  {
  }

  lemma ConsistentReport(t: Tally)
    requires Consistent(t.reports, t.facts) && t.facts.epochs != []
    ensures Consistent(t.reports + [t.facts], t.facts.(wentBack := false))
  {
  }

  predicate Placed(t: Tally) {
    (t.facts.epochs != [] ==> Frontier(t.facts.epochs) >= 0) && (t.facts.epochs == [] ==> t == NO_TALLY)
  }

  lemma PlacedStep(t: Tally, e: Event)
    requires Placed(t)
    ensures Placed(TallyStep(t, e))
  {
    if e.Arrival? {
      MeantIsValid(t, e.p.seqNum);
      EpochsGrow(t.facts.epochs, KindOf(t, e.p.seqNum), Meant(t, e.p.seqNum));
    }
  }

  predicate AllConsistent(t: Tally) {
    Consistent(t.reports, t.facts) &&
    forall i :: 0 <= i < |t.reports| ==> Consistent(t.reports[..i], t.reports[i]) && t.reports[i].epochs != []
  }

  lemma AllConsistentStep(t: Tally, e: Event)
    requires Placed(t) && AllConsistent(t)
    ensures AllConsistent(TallyStep(t, e))
  {
    if e.Arrival? {
      ConsistentArrival(t, e.p, e.now);
      FactsOfNoted(t, e.p, e.now);
    } else if ReportDue(t, e.now) {
      ConsistentReport(t);
      PrefixesStay(t.reports, t.facts);
    }
  }

  lemma PrefixesStay(reports: seq<Facts>, f: Facts)
    ensures forall i :: 0 <= i <= |reports| ==> (reports + [f])[..i] == reports[..i]
    ensures reports[..|reports|] == reports
  {
  }

  lemma {:induction false} ConsistentRun(es: seq<Event>)
    ensures Placed(Tallied(es)) && AllConsistent(Tallied(es))
  {
    if es != [] {
      ConsistentRun(es[..|es| - 1]);
      PlacedStep(Tallied(es[..|es| - 1]), es[|es| - 1]);
      AllConsistentStep(Tallied(es[..|es| - 1]), es[|es| - 1]);
    }
  }

  /** A new report lowers the deepest loss or not, and is cut or not. */
  lemma LowestAppend(reports: seq<Facts>, f: Facts)
    ensures Lowest(reports + [f]) == Lower(Lowest(reports), Loss(f))
    ensures EverCut(reports + [f]) <==> EverCut(reports) || Above(reports, f) > 0x7F_FFFF
  {
    PrefixesStay(reports, f);
    assert (reports + [f])[..|reports|] == reports;
  }
}
