/** What the NACK bookkeeping does not leave undone: exactly who is asked for and when, in every sane
    history; and what its two measurements, round-trip time and reordering, stand on. */
module NackProgress {
  import opened SeqNum
  import H = Histogram
  import opened NackRequester
  import opened NackIdeal
  import opened NackShape
  import opened NackRefinement
  import opened NackTheorems

  // ----- the wait line of a number

  /** Event `e` moves the frontier past number `n`, which is found missing by that. */
  predicate Passes(r: Ideal, e: Event, n: int) {
    e.Packet? && r.started && r.frontier < n < ReceivedAs(r, e.s)
  }

  /** The frontier at which number `n` is asked for: that much above it as the wait was when it was found
      missing. */
  function LineOf(es: seq<Event>, n: int): int {
    if es == [] then n
    else
      var before := es[..|es| - 1];
      if Passes(IdealRun(before), es[|es| - 1], n) then n + WaitPackets(IdealRun(before).samples) else LineOf(before, n)
  }

  lemma LineOfLast(es: seq<Event>, e: Event, n: int)
    ensures LineOf(es + [e], n)
            == if Passes(IdealRun(es), e, n) then n + WaitPackets(IdealRun(es).samples) else LineOf(es, n)
  {
    assert (es + [e])[..|es|] == es;
  }

  predicate LineOk(es: seq<Event>, clock: int, w: Entry) {
    w.sendAt == LineOf(es, w.n) && w.createdTime <= clock
  }

  predicate LinesOk(es: seq<Event>, clock: int, list: seq<Entry>) {
    forall i :: 0 <= i < |list| ==> LineOk(es, clock, list[i])
  }

  /** Asking changes neither the wait line nor the age of an entry. */
  lemma {:induction false} RemainingLines(es: seq<Event>, clock: int, list: seq<Entry>, filter: NackFilter, frontier: int,
                                          now: int, rtt: int)
    requires LinesOk(es, clock, list)
    ensures LinesOk(es, clock, Remaining(list, filter, frontier, now, rtt))
    decreases |list|
  {
    if list != [] {
      RemainingLines(es, clock, list[..|list| - 1], filter, frontier, now, rtt);
    }
  }

  lemma EnteredLines(es: seq<Event>, e: Event, r: Ideal)
    requires r == IdealRun(es) && Shaped(r) && LinesOk(es, r.clock, r.list) && Sane(r, e)
    requires e.Packet? && r.started && ReceivedAs(r, e.s) > r.frontier
    ensures LinesOk(es + [e], e.now, Entered(r, ReceivedAs(r, e.s), e.isKeyFrame, e.now).0)
  {
    var list := Entered(r, ReceivedAs(r, e.s), e.isKeyFrame, e.now).0;
    forall i | 0 <= i < |list| ensures LineOk(es + [e], e.now, list[i]) {
      EnteredFrom(r, ReceivedAs(r, e.s), e.isKeyFrame, e.now, i);
      LineOfLast(es, e, list[i].n);
      if list[i] in r.list {
        var j :| 0 <= j < |r.list| && r.list[j] == list[i];
        assert At(Numbers(r.list), j) < r.frontier;
        assert LineOk(es, r.clock, r.list[j]);
      }
    }
  }

  /** Entries at or below the frontier keep their line. */
  lemma LinesStay(es: seq<Event>, e: Event, list: seq<Entry>, clock: int, later: int)
    requires LinesOk(es, clock, list) && clock <= later
    requires forall i :: 0 <= i < |list| ==> list[i].n <= IdealRun(es).frontier
    ensures LinesOk(es + [e], later, list)
  {
    forall i | 0 <= i < |list| ensures LineOk(es + [e], later, list[i]) {
      assert LineOk(es, clock, list[i]);
      LineOfLast(es, e, list[i].n);
    }
  }

  lemma BelowFrontier(r: Ideal)
    requires Shaped(r)
    ensures forall i :: 0 <= i < |r.list| ==> r.list[i].n <= r.frontier
  {
    forall i | 0 <= i < |r.list| ensures r.list[i].n <= r.frontier {
      assert At(Numbers(r.list), i) < r.frontier;
    }
  }

  lemma PickedLines(es: seq<Event>, e: Event, r: Ideal)
    requires r == IdealRun(es) && Shaped(r) && LinesOk(es, r.clock, r.list) && Sane(r, e)
    ensures LinesOk(es + [e], if e.Rtt? then r.clock else e.now, Picked(r, e))
  {
    BelowFrontier(r);
    match e
    case Packet(s, key, _, now) =>
      if r.started && ReceivedAs(r, s) > r.frontier {
        EnteredLines(es, e, r);
      }
    case Tick(now) => LinesStay(es, e, r.list, r.clock, now);
    case Rtt(_) =>
  }

  lemma WithoutLines(es: seq<Event>, clock: int, list: seq<Entry>, n: int)
    requires LinesOk(es, clock, list)
    ensures LinesOk(es, clock, Without(list, n))
  {
  }

  lemma StepLines(es: seq<Event>, e: Event, r: Ideal)
    requires r == IdealRun(es) && Shaped(r) && LinesOk(es, r.clock, r.list) && Sane(r, e)
    ensures LinesOk(es + [e], IdealStep(r, e).clock, IdealStep(r, e).list)
  {
    BelowFrontier(r);
    PickedLines(es, e, r);
    match e
    case Packet(s, _, _, now) =>
      var n := ReceivedAs(r, s);
      if r.started && n > r.frontier {
        RemainingLines(es + [e], now, Picked(r, e), SeqNumOnly, n, now, r.rtt);
      } else {
        LinesStay(es, e, r.list, r.clock, now);
        WithoutLines(es + [e], now, r.list, n);
      }
    case Tick(now) => RemainingLines(es + [e], now, r.list, TimeOnly, r.frontier, now, r.rtt);
    case Rtt(_) => LinesStay(es, e, r.list, r.clock, r.clock);
  }

  lemma {:induction false} RunLines(es: seq<Event>)
    requires SaneRun(es)
    ensures LinesOk(es, IdealRun(es).clock, IdealRun(es).list)
  {
    if es != [] {
      var before, e := es[..|es| - 1], es[|es| - 1];
      assert es == before + [e];
      RunLines(before);
      NackRefines(before);
      StepLines(before, e, IdealRun(before));
    }
  }

  // ----- exactly who is asked for

  predicate Names(asked: seq<Sent>, n: int) {
    exists i :: 0 <= i < |asked| && asked[i].n == n
  }

  predicate DueAt(list: seq<Entry>, n: int, filter: NackFilter, frontier: int, now: int, rtt: int) {
    exists i :: 0 <= i < |list| && list[i].n == n && IdealDue(list[i], filter, frontier, now, rtt)
  }

  lemma NamesSplit(a: seq<Sent>, b: seq<Sent>, n: int)
    ensures Names(a + b, n) <==> Names(a, n) || Names(b, n)
  {
    if Names(a, n) {
      var i :| 0 <= i < |a| && a[i].n == n;
      assert (a + b)[i].n == n;
    }
    if Names(b, n) {
      var i :| 0 <= i < |b| && b[i].n == n;
      assert (a + b)[|a| + i].n == n;
    }
  }

  lemma DueLast(list: seq<Entry>, n: int, filter: NackFilter, frontier: int, now: int, rtt: int)
    requires list != []
    ensures var k := |list| - 1;
            DueAt(list, n, filter, frontier, now, rtt) <==>
            DueAt(list[..k], n, filter, frontier, now, rtt) ||
            (list[k].n == n && IdealDue(list[k], filter, frontier, now, rtt))
  {
    var k := |list| - 1;
    if DueAt(list[..k], n, filter, frontier, now, rtt) {
      var i :| 0 <= i < k && list[..k][i].n == n && IdealDue(list[..k][i], filter, frontier, now, rtt);
      assert list[i].n == n && IdealDue(list[i], filter, frontier, now, rtt);
    }
    if i :| 0 <= i < |list| && list[i].n == n && IdealDue(list[i], filter, frontier, now, rtt) {
      assert i < k ==> list[..k][i].n == n;
    }
  }

  lemma {:induction false} SentsAreThoseDue(list: seq<Entry>, filter: NackFilter, frontier: int, now: int, rtt: int, n: int)
    ensures Names(Sents(list, filter, frontier, now, rtt), n) <==> DueAt(list, n, filter, frontier, now, rtt)
    decreases |list|
  {
    if list != [] {
      var init, e := list[..|list| - 1], list[|list| - 1];
      SentsAreThoseDue(init, filter, frontier, now, rtt, n);
      NamesSplit(Sents(init, filter, frontier, now, rtt), SentFor(e, filter, frontier, now, rtt), n);
      NamesOne(e, filter, frontier, now, rtt, n);
      DueLast(list, n, filter, frontier, now, rtt);
    }
  }

  lemma NamesOne(e: Entry, filter: NackFilter, frontier: int, now: int, rtt: int, n: int)
    ensures Names(SentFor(e, filter, frontier, now, rtt), n) <==> e.n == n && IdealDue(e, filter, frontier, now, rtt)
  {
    if IdealDue(e, filter, frontier, now, rtt) {
      assert SentFor(e, filter, frontier, now, rtt)[0].n == e.n;
    }
  }

  /** What the timer asks for, exactly: every pending number whose last NACK is more than the round-trip
      time ago, one never asked for counting as asked for at time -1. */
  lemma TimerAsksExactly(es: seq<Event>, now: int, n: int)
    requires SaneRun(es + [Tick(now)])
    ensures var r := IdealRun(es);
            Signalled(Run(es), Tick(now)) == LowNumbers(Asked(r, Tick(now))) &&
            (Names(Asked(r, Tick(now)), n) <==> IsPending(r.list, n) && now - LastAsk(r.log, n) > r.rtt)
  {
    BatchesAskForTheMissing(es, Tick(now));
    RunOne(es, Tick(now));
    RunKeepsBooks(es);
    RunLines(es);
    TimerDue(es, IdealRun(es), now, n);
  }

  lemma TimerDue(es: seq<Event>, r: Ideal, now: int, n: int)
    requires LinesOk(es, r.clock, r.list) && Books(r) && now >= r.clock
    ensures Names(Sents(r.list, TimeOnly, r.frontier, now, r.rtt), n) <==>
            IsPending(r.list, n) && now - LastAsk(r.log, n) > r.rtt
  {
    SentsAreThoseDue(r.list, TimeOnly, r.frontier, now, r.rtt, n);
    forall i | 0 <= i < |r.list|
      ensures IdealDue(r.list[i], TimeOnly, r.frontier, now, r.rtt) <==> now - LastAsk(r.log, r.list[i].n) > r.rtt
    {
      assert EntryOk(r.log, r.clock, r.list[i]) && LineOk(es, r.clock, r.list[i]);
    }
    assert IsPending(r.list, n) <==> exists i :: 0 <= i < |r.list| && r.list[i].n == n;
  }

  /** What an arrival asks for, exactly: nothing unless it moves the frontier, and then every pending
      number never asked for whose wait line the frontier has reached. */
  lemma ArrivalAsksExactly(es: seq<Event>, e: Event, n: int)
    requires SaneRun(es + [e]) && e.Packet?
    ensures var r := IdealRun(es);
            Signalled(Run(es), e) == LowNumbers(Asked(r, e)) &&
            (Names(Asked(r, e), n) <==>
             IsPending(Picked(r, e), n) && Count(r.log, n) == 0 && LineOf(es + [e], n) <= ReceivedAs(r, e.s))
  {
    BatchesAskForTheMissing(es, e);
    RunOne(es, e);
    NackRefines(es);
    RunKeepsBooks(es);
    RunLines(es);
    ArrivalDue(es, e, IdealRun(es), n);
  }

  lemma ArrivalDue(es: seq<Event>, e: Event, r: Ideal, n: int)
    requires r == IdealRun(es) && LinesOk(es, r.clock, r.list) && Books(r) && Shaped(r) && Sane(r, e) && e.Packet?
    ensures Names(Asked(r, e), n) <==>
            IsPending(Picked(r, e), n) && Count(r.log, n) == 0 && LineOf(es + [e], n) <= ReceivedAs(r, e.s)
  {
    var list, m := Picked(r, e), ReceivedAs(r, e.s);
    PickedLines(es, e, r);
    if r.started && m > r.frontier {
      SentsAreThoseDue(list, SeqNumOnly, m, e.now, r.rtt, n);
      forall i | 0 <= i < |list|
        ensures IdealDue(list[i], SeqNumOnly, m, e.now, r.rtt) <==>
                Count(r.log, list[i].n) == 0 && LineOf(es + [e], list[i].n) <= m
      {
        NewEntryOk(r, m, e.isKeyFrame, e.now, i);
        assert LineOk(es + [e], e.now, list[i]);
      }
    }
  }

  /** Which numbers are pending when an arrival moves the frontier without an overflow: those that were and
      are not older than 10000, and all it passed. */
  lemma PendingAfterArrival(es: seq<Event>, e: Event, m: int, n: int)
    requires SaneRun(es + [e]) && e.Packet? && IdealRun(es).started
    requires m == ReceivedAs(IdealRun(es), e.s) > IdealRun(es).frontier
    requires |RecentList(IdealRun(es), m)| + (m - IdealRun(es).frontier - 1) <= 1000
    ensures IsPending(Picked(IdealRun(es), e), n) <==>
            (IsPending(IdealRun(es).list, n) && n >= m - 10000) || IdealRun(es).frontier < n < m
  {
    RunOne(es, e);
    NackRefines(es);
    PendingAfter(IdealRun(es), m, e.isKeyFrame, e.now, n);
  }

  lemma PendingAfter(r: Ideal, m: int, isKeyFrame: bool, now: int, n: int)
    requires Shaped(r) && m > r.frontier && |RecentList(r, m)| + (m - r.frontier - 1) <= 1000
    ensures IsPending(Entered(r, m, isKeyFrame, now).0, n) <==>
            (IsPending(r.list, n) && n >= m - 10000) || r.frontier < n < m
  {
    PendingSplit(RecentList(r, m), NewGap(r, m, now), n);
    GapPending(r, m, now, n);
    SincePending(r.list, m - 10000, n);
  }

  // ----- what was measured

  /** The round-trip time in force: the last one reported, 100 ms before. */
  function LastRtt(es: seq<Event>): int {
    if es == [] then 100
    else if es[|es| - 1].Rtt? then es[|es| - 1].ms
    else LastRtt(es[..|es| - 1])
  }

  /** How far behind the frontier the late packets came that were not retransmitted, cut at 9. */
  function Lateness(es: seq<Event>): seq<nat> {
    if es == [] then []
    else
      var before, e, r := es[..|es| - 1], es[|es| - 1], IdealRun(es[..|es| - 1]);
      if e.Packet? && !e.isRetransmitted && r.started && ReceivedAs(r, e.s) < r.frontier
      then Lateness(before) + [if r.frontier - ReceivedAs(r, e.s) > 9 then 9 else r.frontier - ReceivedAs(r, e.s)]
      else Lateness(before)
  }

  lemma MeasuredStep(r: Ideal, e: Event)
    ensures IdealStep(r, e).rtt == if e.Rtt? then e.ms else r.rtt
    ensures IdealStep(r, e).samples ==
            if e.Packet? && !e.isRetransmitted && r.started && ReceivedAs(r, e.s) < r.frontier
            then r.samples + [if r.frontier - ReceivedAs(r, e.s) > 9 then 9 else r.frontier - ReceivedAs(r, e.s)]
            else r.samples
  {
  }

  lemma {:induction false} MeasuredIdeal(es: seq<Event>)
    ensures IdealRun(es).rtt == LastRtt(es) && IdealRun(es).samples == Lateness(es)
  {
    if es != [] {
      MeasuredIdeal(es[..|es| - 1]);
      MeasuredStep(IdealRun(es[..|es| - 1]), es[|es| - 1]);
    }
  }

  /** The median of the last 128: at least half of them lie below it, and below nothing smaller. */
  predicate MedianOf(w: seq<nat>, n: nat) {
    2 * H.Below(w, n) >= |w| && forall m: nat :: m < n ==> 2 * H.Below(w, m) < |w|
  }

  function Recent(samples: seq<nat>): seq<nat> {
    if |samples| <= 128 then samples else samples[|samples| - 128..]
  }

  /** Round-trip time and wait of the code are those measured: the wait is the median of the last 128
      lateness values, or 0 before there are any. */
  lemma WaitAndRttAreMeasured(es: seq<Event>)
    requires SaneRun(es)
    ensures Run(es).rtt == LastRtt(es)
    ensures var wait := WaitPackets(Run(es).samples);
            if Lateness(es) == [] then wait == 0 else MedianOf(Recent(Lateness(es)), wait)
  {
    NackRefines(es);
    MeasuredIdeal(es);
    WaitIsMedian(es, Lateness(es));
    WindowIs(Lateness(es));
  }

  lemma WindowIs(samples: seq<nat>)
    ensures H.Window(samples, 128) == Recent(samples)
  {
  }
}
