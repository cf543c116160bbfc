/** What holds of the NACK bookkeeping on every sane history: no number is lost from the books, no
    received number is asked for, retries are few and spaced, the list stays short and ordered. */
module NackTheorems {
  import opened SeqNum
  import H = Histogram
  import opened NackRequester
  import opened NackIdeal
  import opened NackShape
  import opened NackRefinement

  /** How often number `n` was asked for. */
  function Count(log: seq<Sent>, n: int): nat {
    if log == [] then 0
    else Count(log[..|log| - 1], n) + if log[|log| - 1].n == n then 1 else 0
  }

  /** When number `n` was last asked for, or -1. */
  function LastAsk(log: seq<Sent>, n: int): int {
    if log == [] then -1
    else if log[|log| - 1].n == n then log[|log| - 1].time
    else LastAsk(log[..|log| - 1], n)
  }

  /** The fates of a number: it came, it is still waited for, it grew too old, it was asked for ten
      times, or an overflow gave it up. */
  predicate Accounted(r: Ideal, n: int) {
    || n in r.received
    || IsPending(r.list, n)
    || n < r.frontier - MAX_PACKET_AGE
    || Count(r.log, n) == MAX_NACK_RETRIES
    || n in r.dropped
  }

  /** Two NACKs of one number are further apart than the round-trip time at the later one. */
  predicate Spaced(log: seq<Sent>) {
    forall i, j :: 0 <= i < j < |log| && log[i].n == log[j].n ==> log[j].time - log[i].time > log[j].rtt
  }

  ghost predicate LogOk(log: seq<Sent>, clock: int) {
    && Spaced(log)
    && (forall i :: 0 <= i < |log| ==> 0 <= log[i].time <= clock)
    && forall n :: Count(log, n) <= MAX_NACK_RETRIES
  }

  /** An entry's counters tell how often and when its number was asked for. */
  predicate EntryOk(log: seq<Sent>, clock: int, e: Entry) {
    && Count(log, e.n) == e.retries < MAX_NACK_RETRIES
    && (e.sendAtTime == -1 <==> e.retries == 0) && e.sendAtTime == LastAsk(log, e.n)
    && -1 <= e.sendAtTime <= clock
    && forall i :: 0 <= i < |log| && log[i].n == e.n ==> log[i].time <= e.sendAtTime
  }

  ghost predicate EntriesOk(log: seq<Sent>, clock: int, list: seq<Entry>) {
    forall i :: 0 <= i < |list| ==> EntryOk(log, clock, list[i])
  }

  ghost predicate Books(r: Ideal) {
    && r.clock >= 0
    && LogOk(r.log, r.clock) && EntriesOk(r.log, r.clock, r.list)
    && (forall i :: 0 <= i < |r.log| ==> r.log[i].n <= r.frontier)
    && (forall x :: x in r.received ==> x <= r.frontier)
    && (forall i :: 0 <= i < |r.list| ==> r.list[i].n !in r.received)
    && (forall x :: x in r.dropped ==> x <= r.frontier && !IsPending(r.list, x))
    && (if r.started then forall n :: r.first <= n <= r.frontier ==> Accounted(r, n)
        else r.log == [] && r.list == [] && r.received == {} && r.dropped == {})
  }

  // ----- one batch

  lemma CountAppend(log: seq<Sent>, x: Sent, n: int)
    ensures Count(log + [x], n) == Count(log, n) + if x.n == n then 1 else 0
    ensures LastAsk(log + [x], n) == if x.n == n then x.time else LastAsk(log, n)
  {
    assert (log + [x])[..|log|] == log;
  }

  lemma {:induction false} CountAbsent(log: seq<Sent>, n: int)
    requires forall i :: 0 <= i < |log| ==> log[i].n != n
    ensures Count(log, n) == 0 && LastAsk(log, n) == -1
  {
    if log != [] {
      CountAbsent(log[..|log| - 1], n);
    }
  }

  lemma AppendKeepsEntry(log: seq<Sent>, clock: int, x: Sent, e: Entry)
    requires EntryOk(log, clock, e) && e.n != x.n && clock <= x.time
    ensures EntryOk(log + [x], x.time, e)
  {
    CountAppend(log, x, e.n);
  }

  /** Asking for a due entry's number keeps the log lawful and the entry's counters true. */
  lemma AskOnce(log: seq<Sent>, clock: int, e: Entry, filter: NackFilter, frontier: int, now: int, rtt: int)
    requires LogOk(log, clock) && EntryOk(log, clock, e) && 0 <= clock <= now
    requires IdealDue(e, filter, frontier, now, rtt)
    ensures var log' := log + [Sent(e.n, now, rtt)];
            LogOk(log', now) && Count(log', e.n) == e.retries + 1 &&
            EntriesOk(log', now, IdealMarked(e, now))
  {
    var x := Sent(e.n, now, rtt);
    forall n ensures Count(log + [x], n) <= MAX_NACK_RETRIES { CountAppend(log, x, n); }
    CountAppend(log, x, e.n);
  }

  /** What one entry adds to the log, and what is left of it. */
  function SentFor(e: Entry, filter: NackFilter, frontier: int, now: int, rtt: int): seq<Sent> {
    if IdealDue(e, filter, frontier, now, rtt) then [Sent(e.n, now, rtt)] else []
  }

  function LeftOf(e: Entry, filter: NackFilter, frontier: int, now: int, rtt: int): seq<Entry> {
    if IdealDue(e, filter, frontier, now, rtt) then IdealMarked(e, now) else [e]
  }

  lemma OneEntryBooks(log: seq<Sent>, left: seq<Entry>, e: Entry,
                      filter: NackFilter, frontier: int, now: int, rtt: int)
    requires LogOk(log, now) && EntriesOk(log, now, left) && EntryOk(log, now, e) && 0 <= now
    requires forall i :: 0 <= i < |left| ==> left[i].n != e.n
    ensures var log' := log + SentFor(e, filter, frontier, now, rtt);
            LogOk(log', now) && EntriesOk(log', now, left + LeftOf(e, filter, frontier, now, rtt))
  {
    if IdealDue(e, filter, frontier, now, rtt) {
      AskOnce(log, now, e, filter, frontier, now, rtt);
      forall i | 0 <= i < |left| ensures EntryOk(log + [Sent(e.n, now, rtt)], now, left[i]) {
        AppendKeepsEntry(log, now, Sent(e.n, now, rtt), left[i]);
      }
    } else {
      assert log + [] == log;
    }
  }

  lemma {:induction false} BatchBooks(list: seq<Entry>, log: seq<Sent>, clock: int,
                                      filter: NackFilter, frontier: int, now: int, rtt: int)
    requires Ascending(Numbers(list)) && LogOk(log, clock) && EntriesOk(log, clock, list)
    requires 0 <= clock <= now
    ensures var log' := log + Sents(list, filter, frontier, now, rtt);
            LogOk(log', now) && EntriesOk(log', now, Remaining(list, filter, frontier, now, rtt))
    decreases |list|
  {
    if list == [] {
      assert log + [] == log;
    } else {
      var k := |list| - 1;
      var init, e := list[..k], list[k];
      InitAscending(list);
      BatchBooks(init, log, clock, filter, frontier, now, rtt);
      SentsBelow(init, filter, frontier, now, rtt, e.n);
      EntrySurvives(log, clock, Sents(init, filter, frontier, now, rtt), now, e);
      OneEntryBooks(log + Sents(init, filter, frontier, now, rtt), Remaining(init, filter, frontier, now, rtt), e,
                    filter, frontier, now, rtt);
      assert log + Sents(list, filter, frontier, now, rtt)
          == log + Sents(init, filter, frontier, now, rtt) + SentFor(e, filter, frontier, now, rtt);
    }
  }

  lemma InitAscending(list: seq<Entry>)
    requires list != [] && Ascending(Numbers(list))
    ensures var k := |list| - 1;
            Ascending(Numbers(list[..k])) && forall i :: 0 <= i < k ==> list[i].n < list[k].n
  {
    var k, ks := |list| - 1, Numbers(list);
    NumbersPiece(list, 0, k);
    Piece(ks, 0, k);
    assert list[0..k] == list[..k];
    forall i | 0 <= i < k ensures list[i].n < list[k].n {
      assert At(ks, i) < At(ks, k);
    }
  }

  lemma {:induction false} SentsBelow(list: seq<Entry>, filter: NackFilter, frontier: int, now: int, rtt: int, bound: int)
    requires forall i :: 0 <= i < |list| ==> list[i].n < bound
    ensures forall i :: 0 <= i < |Sents(list, filter, frontier, now, rtt)| ==>
              Sents(list, filter, frontier, now, rtt)[i].n < bound
    ensures forall i :: 0 <= i < |Sents(list, filter, frontier, now, rtt)| ==>
              Sents(list, filter, frontier, now, rtt)[i].time == now
    ensures forall i :: 0 <= i < |Remaining(list, filter, frontier, now, rtt)| ==>
              Remaining(list, filter, frontier, now, rtt)[i].n < bound
    decreases |list|
  {
    if list != [] {
      SentsBelow(list[..|list| - 1], filter, frontier, now, rtt, bound);
    }
  }

  lemma {:induction false} EntrySurvives(log: seq<Sent>, clock: int, sents: seq<Sent>, now: int, e: Entry)
    requires EntryOk(log, clock, e) && clock <= now
    requires forall i :: 0 <= i < |sents| ==> sents[i].n < e.n
    ensures EntryOk(log + sents, now, e)
    decreases |sents|
  {
    if sents == [] {
      assert log + sents == log;
    } else {
      var k := |sents| - 1;
      assert log + sents == log + sents[..k] + [sents[k]];
      EntrySurvives(log, clock, sents[..k], now, e);
      CountAppend(log + sents[..k], sents[k], e.n);
    }
  }

  /** The fate of number `n` in a batch over `list`. */
  ghost predicate Kept(list: seq<Entry>, left: seq<Entry>, log: seq<Sent>, log': seq<Sent>, n: int) {
    && (IsPending(list, n) ==> IsPending(left, n) || Count(log', n) == MAX_NACK_RETRIES)
    && (IsPending(left, n) ==> IsPending(list, n))
    && Count(log', n) >= Count(log, n)
  }

  lemma OneEntryKept(init: seq<Entry>, left: seq<Entry>, log0: seq<Sent>, log: seq<Sent>, e: Entry,
                     filter: NackFilter, frontier: int, now: int, rtt: int, n: int)
    requires Kept(init, left, log0, log, n) && EntryOk(log, now, e) && !IsPending(init, e.n)
    ensures Kept(init + [e], left + LeftOf(e, filter, frontier, now, rtt), log0,
                 log + SentFor(e, filter, frontier, now, rtt), n)
  {
    PendingSplit(init, [e], n);
    PendingSplit(left, LeftOf(e, filter, frontier, now, rtt), n);
    PendingOne(e, n);
    if IdealDue(e, filter, frontier, now, rtt) {
      CountAppend(log, Sent(e.n, now, rtt), n);
      if e.retries + 1 < MAX_NACK_RETRIES {
        PendingOne(IdealMarked(e, now)[0], n);
      }
    } else {
      assert log + [] == log;
    }
  }

  lemma PendingOne(e: Entry, n: int)
    ensures IsPending([e], n) <==> e.n == n
  {
    assert [e][0] == e;
  }

  /** A batch gives up a number only once it was asked for ten times. */
  lemma {:induction false} BatchAccounts(list: seq<Entry>, log: seq<Sent>, clock: int,
                                         filter: NackFilter, frontier: int, now: int, rtt: int, n: int)
    requires Ascending(Numbers(list)) && EntriesOk(log, clock, list)
    requires 0 <= clock <= now
    ensures Kept(list, Remaining(list, filter, frontier, now, rtt), log,
                 log + Sents(list, filter, frontier, now, rtt), n)
    decreases |list|
  {
    if list == [] {
      assert log + [] == log;
    } else {
      var k := |list| - 1;
      var init, e := list[..k], list[k];
      InitAscending(list);
      BatchAccounts(init, log, clock, filter, frontier, now, rtt, n);
      SentsBelow(init, filter, frontier, now, rtt, e.n);
      EntrySurvives(log, clock, Sents(init, filter, frontier, now, rtt), now, e);
      assert list == init + [e];
      assert log + Sents(list, filter, frontier, now, rtt)
          == log + Sents(init, filter, frontier, now, rtt) + SentFor(e, filter, frontier, now, rtt);
      assert Remaining(list, filter, frontier, now, rtt)
          == Remaining(init, filter, frontier, now, rtt) + LeftOf(e, filter, frontier, now, rtt);
      assert !IsPending(init, e.n);
      OneEntryKept(init, Remaining(init, filter, frontier, now, rtt), log,
                   log + Sents(init, filter, frontier, now, rtt), e, filter, frontier, now, rtt, n);
    }
  }

  lemma PendingSplit(a: seq<Entry>, b: seq<Entry>, n: int)
    ensures IsPending(a + b, n) <==> IsPending(a, n) || IsPending(b, n)
  {
    if IsPending(a, n) {
      var i :| 0 <= i < |a| && a[i].n == n;
      assert (a + b)[i].n == n;
    }
    if IsPending(b, n) {
      var i :| 0 <= i < |b| && b[i].n == n;
      assert (a + b)[|a| + i].n == n;
    }
  }

  /** Oldest first, no number twice. */
  predicate OldestFirst(sents: seq<Sent>) {
    forall i, j :: 0 <= i < j < |sents| ==> sents[i].n < sents[j].n
  }

  predicate AllPending(list: seq<Entry>, sents: seq<Sent>) {
    forall i :: 0 <= i < |sents| ==> IsPending(list, sents[i].n)
  }

  lemma AllPendingGrows(init: seq<Entry>, e: Entry, sents: seq<Sent>, x: seq<Sent>)
    requires AllPending(init, sents) && forall i :: 0 <= i < |x| ==> x[i].n == e.n
    ensures AllPending(init + [e], sents + x)
  {
    forall i | 0 <= i < |sents + x| ensures IsPending(init + [e], (sents + x)[i].n) {
      var n := (sents + x)[i].n;
      PendingSplit(init, [e], n);
      PendingOne(e, n);
      if i < |sents| {
        assert (sents + x)[i] == sents[i];
      }
    }
  }

  lemma {:induction false} BatchNumbers(list: seq<Entry>, filter: NackFilter, frontier: int, now: int, rtt: int)
    requires Ascending(Numbers(list))
    ensures AllPending(list, Sents(list, filter, frontier, now, rtt))
    ensures OldestFirst(Sents(list, filter, frontier, now, rtt))
    decreases |list|
  {
    if list != [] {
      var k := |list| - 1;
      var init, e := list[..k], list[k];
      InitAscending(list);
      BatchNumbers(init, filter, frontier, now, rtt);
      SentsBelow(init, filter, frontier, now, rtt, e.n);
      AllPendingGrows(init, e, Sents(init, filter, frontier, now, rtt), SentFor(e, filter, frontier, now, rtt));
      assert list == init + [e];
      assert Sents(list, filter, frontier, now, rtt)
          == Sents(init, filter, frontier, now, rtt) + SentFor(e, filter, frontier, now, rtt);
    }
  }

  // ----- every step keeps the books

  lemma BatchKeepsBooks(r: Ideal, filter: NackFilter, now: int)
    requires Books(r) && Shaped(r) && now >= r.clock && r.started
    ensures Books(IdealBatch(r, filter, now).(clock := now))
  {
    var r' := IdealBatch(r, filter, now).(clock := now);
    var sents := Sents(r.list, filter, r.frontier, now, r.rtt);
    BatchBooks(r.list, r.log, r.clock, filter, r.frontier, now, r.rtt);
    SentsBelow(r.list, filter, r.frontier, now, r.rtt, r.frontier) by {
      forall i | 0 <= i < |r.list| ensures r.list[i].n < r.frontier { assert At(Numbers(r.list), i) < r.frontier; }
    }
    forall n ensures Kept(r.list, r'.list, r.log, r'.log, n) {
      BatchAccounts(r.list, r.log, r.clock, filter, r.frontier, now, r.rtt, n);
    }
    forall n | r.first <= n <= r.frontier ensures Accounted(r', n) {
      assert Accounted(r, n) && Kept(r.list, r'.list, r.log, r'.log, n);
      assert Count(r'.log, n) <= MAX_NACK_RETRIES;
    }
    forall x | x in r'.dropped ensures !IsPending(r'.list, x) {
      assert Kept(r.list, r'.list, r.log, r'.log, x);
    }
    forall i | 0 <= i < |r'.list| ensures r'.list[i].n !in r'.received {
      assert Kept(r.list, r'.list, r.log, r'.log, r'.list[i].n) && IsPending(r'.list, r'.list[i].n);
    }
  }

  lemma OldKeepsBooks(r: Ideal, n: int, isRetransmitted: bool)
    requires Books(r) && Shaped(r) && r.started && n < r.frontier
    ensures Books(IdealOld(r, n, isRetransmitted))
  {
    var r' := IdealOld(r, n, isRetransmitted);
    forall j | 0 <= j < |r'.list| ensures EntryOk(r.log, r.clock, r'.list[j]) && r'.list[j].n !in r'.received {
      DroppedOne(r.list, n, j);
      var k :| 0 <= k < |r.list| && r.list[k] == r'.list[j];
    }
    forall m | r.first <= m <= r.frontier ensures Accounted(r', m) {
      assert Accounted(r, m);
      if m != n && IsPending(r.list, m) {
        OthersStay(r.list, n, m);
      }
    }
    forall x | x in r'.dropped ensures !IsPending(r'.list, x) {
      if IsPending(r'.list, x) {
        var j :| 0 <= j < |r'.list| && r'.list[j].n == x;
        DroppedOne(r.list, n, j);
      }
    }
  }

  lemma OthersStay(list: seq<Entry>, n: int, m: int)
    requires m != n && IsPending(list, m)
    ensures IsPending(Without(list, n), m)
  {
    var i := CountBelow(Numbers(list), n);
    if i < |list| && list[i].n == n {
      PendingSplit(list[..i], list[i + 1..], m);
      var j :| 0 <= j < |list| && list[j].n == m;
      assert if j < i then list[..i][j].n == m else list[i + 1..][j - i - 1].n == m;
    }
  }

  lemma DroppedOne(list: seq<Entry>, n: int, j: nat)
    requires Ascending(Numbers(list)) && j < |Without(list, n)|
    ensures Without(list, n)[j] in list && Without(list, n)[j].n != n
  {
    var i := CountBelow(Numbers(list), n);
    var l := Without(list, n);
    var k := if j < i || l == list then j else j + 1;
    assert l[j] == list[k];
    if l[j].n == n {
      FoundAt(list, n, k);
    }
  }

  lemma RoomFrom(list: seq<Entry>, ks: seq<int>, gap: seq<Entry>, i: nat)
    requires i < |MakeRoom(list, ks, gap).0|
    ensures var e := MakeRoom(list, ks, gap).0[i]; e in list || e in gap
  {
    var k := FirstFit(list, ks, |gap|);
    if !Fits(list, |gap|) && k < |ks| {
      var kept := Since(list, ks[k]);
      assert MakeRoom(list, ks, gap).0 == kept + gap;
    }
  }

  /** The entries of a list after the gap was entered are old ones or fresh ones. */
  lemma EnteredFrom(r: Ideal, n: int, isKeyFrame: bool, now: int, i: nat)
    requires n > r.frontier && i < |Entered(r, n, isKeyFrame, now).0|
    ensures var e := Entered(r, n, isKeyFrame, now).0[i];
            e in r.list ||
            (r.frontier < e.n < n && e == Entry(e.n, e.n + WaitPackets(r.samples), now, -1, 0))
  {
    RoomFrom(RecentList(r, n), RecentKeyFrames(r, n, isKeyFrame), NewGap(r, n, now), i);
  }

  /** Dropping what is older than `x` drops exactly that. */
  lemma SincePending(list: seq<Entry>, x: int, m: int)
    requires Ascending(Numbers(list))
    ensures IsPending(Since(list, x), m) <==> m >= x && IsPending(list, m)
  {
    var ks := Numbers(list);
    var c := CountBelow(ks, x);
    CountBelowSplits(ks, x);
    if IsPending(list, m) && m >= x {
      var i :| 0 <= i < |list| && list[i].n == m;
      assert i < c ==> At(ks, i) < x;
      assert Since(list, x)[i - c].n == m;
    }
    if IsPending(Since(list, x), m) {
      var i :| 0 <= i < |list| - c && list[c..][i].n == m;
      assert At(ks, c) <= At(ks, c + i) && list[c + i].n == m;
    }
  }

  /** Without an overflow every recent entry and every gap number is on the list. */
  lemma EnteredHas(r: Ideal, n: int, isKeyFrame: bool, now: int, m: int)
    requires Shaped(r) && n > r.frontier && Fits(RecentList(r, n), n - r.frontier - 1)
    requires r.frontier < m < n || (IsPending(r.list, m) && m >= n - MAX_PACKET_AGE)
    ensures IsPending(Entered(r, n, isKeyFrame, now).0, m)
  {
    var gap := NewGap(r, n, now);
    PendingSplit(RecentList(r, n), gap, m);
    if r.frontier < m < n {
      assert gap[m - r.frontier - 1].n == m;
    } else {
      SincePending(r.list, n - MAX_PACKET_AGE, m);
    }
  }

  lemma NewKeepsBooks(r: Ideal, n: int, isKeyFrame: bool, now: int)
    requires Books(r) && Shaped(r) && r.started && n > r.frontier && now >= r.clock
    ensures Books(IdealNew(r, n, isKeyFrame, now))
  {
    var r' := IdealNew(r, n, isKeyFrame, now);
    assert r'.log == r.log && r'.clock == r.clock && r'.frontier == n && r'.received == r.received + {n};
    forall i | 0 <= i < |r'.list| ensures EntryOk(r.log, r.clock, r'.list[i]) && r'.list[i].n !in r'.received {
      NewEntryOk(r, n, isKeyFrame, now, i);
    }
    forall x | x in r'.dropped ensures x <= n && !IsPending(r'.list, x) {
      NewDropped(r, n, isKeyFrame, now, x);
    }
    forall m | r'.first <= m <= n ensures Accounted(r', m) {
      NewAccounted(r, n, isKeyFrame, now, m);
    }
  }

  lemma NewEntryOk(r: Ideal, n: int, isKeyFrame: bool, now: int, i: nat)
    requires Books(r) && Shaped(r) && r.started && n > r.frontier
    requires i < |Entered(r, n, isKeyFrame, now).0|
    ensures var e := Entered(r, n, isKeyFrame, now).0[i];
            EntryOk(r.log, r.clock, e) && e.n !in r.received + {n}
  {
    EnteredFrom(r, n, isKeyFrame, now, i);
    var e := Entered(r, n, isKeyFrame, now).0[i];
    if e in r.list {
      var j :| 0 <= j < |r.list| && r.list[j] == e;
      assert At(Numbers(r.list), j) < n;
    } else {
      CountAbsent(r.log, e.n);
    }
  }

  lemma NewAccounted(r: Ideal, n: int, isKeyFrame: bool, now: int, m: int)
    requires Books(r) && Shaped(r) && r.started && n > r.frontier && r.first <= m <= n
    ensures Accounted(IdealNew(r, n, isKeyFrame, now), m)
  {
    if m <= r.frontier {
      assert Accounted(r, m);
    }
    if r.frontier < m < n || (IsPending(r.list, m) && m >= n - MAX_PACKET_AGE) {
      if Fits(RecentList(r, n), n - r.frontier - 1) {
        EnteredHas(r, n, isKeyFrame, now, m);
      } else {
        OverflowDecides(r, n, isKeyFrame, now, m);
      }
    }
  }

  lemma AllGivenUpIs(r: Ideal, n: int, isKeyFrame: bool, m: int)
    requires n > r.frontier
    ensures m in AllGivenUp(r, n, isKeyFrame) <==> GivesUp(r, n, isKeyFrame, m)
  {
    PendingSplit(RecentList(r, n), NewGap(r, n, 0), m);
    GapPending(r, n, 0, m);
  }

  /** After an overflow a recent entry or gap number is either on the list or given up. */
  lemma OverflowDecides(r: Ideal, n: int, isKeyFrame: bool, now: int, m: int)
    requires Shaped(r) && n > r.frontier && !Fits(RecentList(r, n), n - r.frontier - 1)
    requires r.frontier < m < n || (IsPending(r.list, m) && m >= n - MAX_PACKET_AGE)
    ensures IsPending(Entered(r, n, isKeyFrame, now).0, m) <==> m !in AllGivenUp(r, n, isKeyFrame)
  {
    OverflowKeepsFromKeyFrame(r, n, isKeyFrame, now, m);
    SincePending(r.list, n - MAX_PACKET_AGE, m);
    AllGivenUpIs(r, n, isKeyFrame, m);
    if IsPending(RecentList(r, n), m) {
      RecentIsOld(r, n, m);
    }
  }

  /** Gap numbers are younger than every entry, so no anchor separates them. */
  lemma RecentIsOld(r: Ideal, n: int, m: int)
    requires Shaped(r) && n > r.frontier
    requires IsPending(RecentList(r, n), m)
    ensures m < r.frontier
  {
    RecentListed(r, n);
    var i :| 0 <= i < |RecentList(r, n)| && RecentList(r, n)[i].n == m;
    assert At(Numbers(RecentList(r, n)), i) <= r.frontier - 1;
  }

  lemma GivenUpIsOff(r: Ideal, n: int, isKeyFrame: bool, now: int, x: int)
    requires Shaped(r) && n > r.frontier && x in AllGivenUp(r, n, isKeyFrame)
    ensures x <= n && !IsPending(Entered(r, n, isKeyFrame, now).0, x)
  {
    AllGivenUpIs(r, n, isKeyFrame, x);
    OverflowKeepsFromKeyFrame(r, n, isKeyFrame, now, x);
    if IsPending(RecentList(r, n), x) {
      RecentIsOld(r, n, x);
    }
  }

  lemma StaysOff(r: Ideal, n: int, isKeyFrame: bool, now: int, x: int)
    requires n > r.frontier && x <= r.frontier && !IsPending(r.list, x)
    ensures !IsPending(Entered(r, n, isKeyFrame, now).0, x)
  {
    var l := Entered(r, n, isKeyFrame, now).0;
    if IsPending(l, x) {
      var i :| 0 <= i < |l| && l[i].n == x;
      EnteredFrom(r, n, isKeyFrame, now, i);
    }
  }

  /** Nothing an overflow ever gave up is on the list. */
  lemma NewDropped(r: Ideal, n: int, isKeyFrame: bool, now: int, x: int)
    requires Books(r) && Shaped(r) && n > r.frontier && x in r.dropped + AllGivenUp(r, n, isKeyFrame)
    ensures x <= n && !IsPending(Entered(r, n, isKeyFrame, now).0, x)
  {
    if x in r.dropped {
      StaysOff(r, n, isKeyFrame, now, x);
    } else {
      GivenUpIsOff(r, n, isKeyFrame, now, x);
    }
  }

  /** Time passing and a new round-trip time change nothing in the books. */
  lemma BooksLater(r: Ideal, clock: int, rtt: int)
    requires Books(r) && clock >= r.clock
    ensures Books(r.(clock := clock, rtt := rtt))
  {
    var r' := r.(clock := clock, rtt := rtt);
    assert forall n :: Accounted(r, n) ==> Accounted(r', n);
  }

  lemma StepKeepsBooks(r: Ideal, e: Event)
    requires Books(r) && Shaped(r) && Sane(r, e)
    ensures Books(IdealStep(r, e))
  {
    match e
    case Packet(s, key, retransmitted, now) =>
      var n := ReceivedAs(r, s);
      BooksLater(r, now, r.rtt);
      if !r.started {
        FirstBooks(r, s, key);
        BooksLater(IdealFirst(r, s, key), now, r.rtt);
      } else if n < r.frontier {
        OldKeepsBooks(r, n, retransmitted);
        BooksLater(IdealOld(r, n, retransmitted), now, r.rtt);
      } else if n > r.frontier {
        NewKeepsBooks(r, n, key, now);
        NewShaped(r, n, key, now);
        BatchKeepsBooks(IdealNew(r, n, key, now), SeqNumOnly, now);
      }
    case Tick(now) =>
      if r.started {
        BatchKeepsBooks(r, TimeOnly, now);
      } else {
        assert r.log + [] == r.log;
        BooksLater(r, now, r.rtt);
      }
    case Rtt(ms) => BooksLater(r, r.clock, ms);
  }

  lemma FirstBooks(r: Ideal, s: Seq16, isKeyFrame: bool)
    requires Books(r) && !r.started
    ensures Books(IdealFirst(r, s, isKeyFrame))
  {
  }

  lemma {:induction false} RunKeepsBooks(es: seq<Event>)
    requires SaneRun(es)
    ensures Books(IdealRun(es))
  {
    if es != [] {
      var before := es[..|es| - 1];
      NackRefines(before);
      RunKeepsBooks(before);
      StepKeepsBooks(IdealRun(before), es[|es| - 1]);
    }
  }

  // ----- the theorems, over every sane history

  lemma RunOne(es: seq<Event>, e: Event)
    ensures Run(es + [e]) == Step(Run(es), e) && IdealRun(es + [e]) == IdealStep(IdealRun(es), e)
    ensures SaneRun(es + [e]) <==> SaneRun(es) && Sane(IdealRun(es), e)
  {
    assert (es + [e])[..|es|] == es;
  }

  /** Number `n` was received at some point of the history. */
  ghost predicate Received(es: seq<Event>, n: int) {
    exists i :: 0 <= i < |es| && ReceivedAt(es, i, n)
  }

  predicate ReceivedAt(es: seq<Event>, i: nat, n: int)
    requires i < |es|
  {
    es[i].Packet? && ReceivedAs(IdealRun(es[..i]), es[i].s) == n
  }

  lemma ReceivedLast(es: seq<Event>, e: Event, n: int)
    ensures Received(es + [e], n) <==> Received(es, n) || (e.Packet? && ReceivedAs(IdealRun(es), e.s) == n)
  {
    var all := es + [e];
    assert all[..|es|] == es;
    assert ReceivedAt(all, |es|, n) <==> e.Packet? && ReceivedAs(IdealRun(es), e.s) == n;
    forall i | 0 <= i < |es| ensures ReceivedAt(all, i, n) == ReceivedAt(es, i, n) {
      assert all[..i] == es[..i];
    }
    if Received(es, n) {
      var i :| 0 <= i < |es| && ReceivedAt(es, i, n);
      assert ReceivedAt(all, i, n);
    }
  }

  lemma ReceivedStep(r: Ideal, e: Event, n: int)
    requires r.started ==> r.frontier in r.received
    requires !r.started ==> r.received == {}
    ensures var r' := IdealStep(r, e);
            (n in r'.received <==> n in r.received || (e.Packet? && ReceivedAs(r, e.s) == n)) &&
            (r'.started ==> r'.frontier in r'.received)
  {
  }

  lemma {:induction false} ReceivedIsReceived(es: seq<Event>, n: int)
    requires SaneRun(es)
    ensures n in IdealRun(es).received <==> Received(es, n)
    ensures IdealRun(es).started ==> IdealRun(es).frontier in IdealRun(es).received
  {
    if es != [] {
      var before, e := es[..|es| - 1], es[|es| - 1];
      assert es == before + [e];
      ReceivedIsReceived(before, n);
      RunKeepsBooks(before);
      ReceivedLast(before, e, n);
      ReceivedStep(IdealRun(before), e, n);
    }
  }

  /** Event `i` of the history moved the frontier and thereby overflowed the list, and that gave up
      number `n`. */
  predicate DroppedAt(es: seq<Event>, i: nat, n: int)
    requires i < |es|
  {
    Drops(IdealRun(es[..i]), es[i], n)
  }

  predicate Drops(r: Ideal, e: Event, n: int) {
    e.Packet? && r.started && ReceivedAs(r, e.s) > r.frontier && GivesUp(r, ReceivedAs(r, e.s), e.isKeyFrame, n)
  }

  ghost predicate Dropped(es: seq<Event>, n: int) {
    exists i :: 0 <= i < |es| && DroppedAt(es, i, n)
  }

  lemma DroppedLast(es: seq<Event>, e: Event, n: int)
    ensures Dropped(es + [e], n) <==> Dropped(es, n) || Drops(IdealRun(es), e, n)
  {
    var all := es + [e];
    assert all[..|es|] == es;
    assert DroppedAt(all, |es|, n) <==> Drops(IdealRun(es), e, n);
    forall i | 0 <= i < |es| ensures DroppedAt(all, i, n) == DroppedAt(es, i, n) {
      assert all[..i] == es[..i];
    }
    if Dropped(es, n) {
      var i :| 0 <= i < |es| && DroppedAt(es, i, n);
      assert DroppedAt(all, i, n);
    }
  }

  lemma DroppedStep(r: Ideal, e: Event, n: int)
    ensures n in IdealStep(r, e).dropped <==> n in r.dropped || Drops(r, e, n)
  {
    if e.Packet? && r.started && ReceivedAs(r, e.s) > r.frontier {
      AllGivenUpIs(r, ReceivedAs(r, e.s), e.isKeyFrame, n);
    }
  }

  lemma {:induction false} DroppedIsDropped(es: seq<Event>, n: int)
    ensures n in IdealRun(es).dropped <==> Dropped(es, n)
  {
    if es != [] {
      var before, e := es[..|es| - 1], es[|es| - 1];
      assert es == before + [e];
      DroppedIsDropped(before, n);
      DroppedLast(before, e, n);
      DroppedStep(IdealRun(before), e, n);
    }
  }

  /** A number was given up: it fell more than 10000 behind the frontier, it was asked for ten times, or
      an overflow dropped it because it preceded the key frame that made room or nothing made room. */
  ghost predicate Abandoned(es: seq<Event>, n: int) {
    n < IdealRun(es).frontier - 10000 || Count(IdealRun(es).log, n) == 10 || Dropped(es, n)
  }

  /** Conservation: every number from the first packet up to the frontier was received, is still on the
      list, or was given up; and what is on the list was neither received nor given up. */
  lemma {:induction false} NackConservation(es: seq<Event>, n: int)
    requires SaneRun(es)
    ensures var r := IdealRun(es);
            Refines(Run(es), r) &&
            (r.started && r.first <= n <= r.frontier ==> Received(es, n) || IsPending(r.list, n) || Abandoned(es, n)) &&
            (IsPending(r.list, n) ==> !Received(es, n) && !Abandoned(es, n))
  {
    NackRefines(es);
    RunKeepsBooks(es);
    ReceivedIsReceived(es, n);
    DroppedIsDropped(es, n);
    assert IdealRun(es).started && IdealRun(es).first <= n <= IdealRun(es).frontier ==> Accounted(IdealRun(es), n);
    if IsPending(IdealRun(es).list, n) {
      PendingIsLive(IdealRun(es), n);
    }
  }

  lemma PendingIsLive(r: Ideal, n: int)
    requires Books(r) && Shaped(r) && IsPending(r.list, n)
    ensures n !in r.received && n !in r.dropped
    ensures n >= r.frontier - MAX_PACKET_AGE && Count(r.log, n) < MAX_NACK_RETRIES
  {
    var i :| 0 <= i < |r.list| && r.list[i].n == n;
    assert EntryOk(r.log, r.clock, r.list[i]) && r.frontier - MAX_PACKET_AGE <= At(Numbers(r.list), i);
  }

  /** Whatever the history, a number is asked for at most ten times, each time more than the round-trip
      time then in force after every earlier one. */
  lemma FewAndSpacedNacks(es: seq<Event>, n: int)
    requires SaneRun(es)
    ensures Count(IdealRun(es).log, n) <= 10
    ensures Spaced(IdealRun(es).log)
  {
    RunKeepsBooks(es);
  }

  /** At most 1000 entries, all different, oldest first under the wrap comparator, each 1 to 10000
      behind the frontier. */
  lemma ListStaysShort(es: seq<Event>)
    requires SaneRun(es)
    ensures var st := Run(es);
            |st.list| <= 1000 &&
            (forall i, j :: 0 <= i < j < |st.list| ==> AheadOf(st.list[j].seqNum, st.list[i].seqNum)) &&
            (forall i :: 0 <= i < |st.list| ==>
              1 <= ReverseDiff(st.newest, st.list[i].seqNum) <= 10000)
  {
    NackRefines(es);
    var st, r := Run(es), IdealRun(es);
    forall i, j | 0 <= i < j < |st.list| ensures AheadOf(st.list[j].seqNum, st.list[i].seqNum) {
      assert At(Numbers(r.list), i) < At(Numbers(r.list), j);
      assert r.frontier - MAX_PACKET_AGE <= At(Numbers(r.list), i) && At(Numbers(r.list), j) < r.frontier;
      AheadIsOrder(r.list[j].n, r.list[i].n);
    }
    forall i | 0 <= i < |st.list| ensures 1 <= ReverseDiff(st.newest, st.list[i].seqNum) <= MAX_PACKET_AGE {
      assert r.frontier - MAX_PACKET_AGE <= At(Numbers(r.list), i) < r.frontier;
      DistanceBehind(r.frontier, r.list[i].n);
    }
  }

  /** The list the batch of an event is picked from. */
  function Picked(r: Ideal, e: Event): seq<Entry> {
    match e
    case Packet(s, key, _, now) =>
      var n := ReceivedAs(r, s);
      if r.started && n > r.frontier then IdealNew(r, n, key, now).list else []
    case Tick(_) => r.list
    case Rtt(_) => []
  }

  function Asked(r: Ideal, e: Event): seq<Sent> {
    if e.Rtt? then []
    else Sents(Picked(r, e), if e.Tick? then TimeOnly else SeqNumOnly, IdealStep(r, e).frontier, e.now, r.rtt)
  }

  lemma AskedIsLogged(r: Ideal, e: Event)
    ensures IdealStep(r, e).log == r.log + Asked(r, e)
  {
    assert r.log + [] == r.log;
  }

  lemma SignalledIsAsked(st: Nack, r: Ideal, e: Event)
    requires Refines(st, r) && Shaped(r) && Sane(r, e)
    ensures Signalled(st, e) == LowNumbers(Asked(r, e))
  {
    match e
    case Packet(s, key, retransmitted, now) =>
      var n := ReceivedAs(r, s);
      if r.started && n > r.frontier {
        AheadIsTotal(s, Low(r.frontier));
        AdvanceRefines(st, r, n, key, now);
        NewShaped(r, n, key, now);
        SendAtNear(IdealNew(r, n, key, now));
        BatchRefines(Picked(r, e), SeqNumOnly, n, now, r.rtt);
      } else if r.started && n < r.frontier {
        AheadIsTotal(s, Low(r.frontier));
      }
    case Tick(now) =>
      SendAtNear(r);
      BatchRefines(r.list, TimeOnly, r.frontier, now, r.rtt);
    case Rtt(_) =>
  }

  /** Nothing that was received is ever asked for again; a batch names no number twice and the oldest
      first, also under the wrap comparator. */
  lemma BatchesAskForTheMissing(es: seq<Event>, e: Event)
    requires SaneRun(es + [e])
    ensures var asked := Asked(IdealRun(es), e);
            Signalled(Run(es), e) == LowNumbers(asked) &&
            IdealRun(es + [e]).log == IdealRun(es).log + asked &&
            OldestFirst(asked) &&
            forall i :: 0 <= i < |asked| ==> !Received(es + [e], asked[i].n)
    ensures var batch := Signalled(Run(es), e);
            forall i, j :: 0 <= i < j < |batch| ==> AheadOf(batch[j], batch[i])
  {
    RunOne(es, e);
    NackRefines(es);
    RunKeepsBooks(es);
    var r, asked := IdealRun(es), Asked(IdealRun(es), e);
    SignalledIsAsked(Run(es), r, e);
    AskedIsLogged(r, e);
    AskedIsMissing(r, e);
    forall i | 0 <= i < |asked| ensures !Received(es + [e], asked[i].n) {
      ReceivedIsReceived(es + [e], asked[i].n);
    }
    forall i, j | 0 <= i < j < |asked| ensures AheadOf(LowNumbers(asked)[j], LowNumbers(asked)[i]) {
      AheadIsOrder(asked[j].n, asked[i].n);
    }
  }

  lemma AskedIsMissing(r: Ideal, e: Event)
    requires Books(r) && Shaped(r) && Sane(r, e)
    ensures var asked, r' := Asked(r, e), IdealStep(r, e);
            OldestFirst(asked) && forall i :: 0 <= i < |asked| ==>
              asked[i].n !in r'.received && r'.frontier - MAX_PACKET_AGE <= asked[i].n < r'.frontier
  {
    PickedIsMissing(r, e);
    BatchNumbers(Picked(r, e), if e.Tick? then TimeOnly else SeqNumOnly, IdealStep(r, e).frontier,
                 if e.Rtt? then 0 else e.now, r.rtt);
    forall i | 0 <= i < |Asked(r, e)| ensures IsPending(Picked(r, e), Asked(r, e)[i].n) {}
  }

  lemma PickedIsMissing(r: Ideal, e: Event)
    requires Books(r) && Shaped(r) && Sane(r, e)
    ensures Ascending(Numbers(Picked(r, e)))
    ensures forall n :: IsPending(Picked(r, e), n) ==>
              n !in IdealStep(r, e).received &&
              IdealStep(r, e).frontier - MAX_PACKET_AGE <= n < IdealStep(r, e).frontier
  {
    var r' := IdealStep(r, e);
    var list := Picked(r, e);
    if e.Packet? && r.started && ReceivedAs(r, e.s) > r.frontier {
      NewKeepsBooks(r, ReceivedAs(r, e.s), e.isKeyFrame, e.now);
      NewShaped(r, ReceivedAs(r, e.s), e.isKeyFrame, e.now);
    }
    forall n | IsPending(list, n)
      ensures n !in r'.received && r'.frontier - MAX_PACKET_AGE <= n < r'.frontier
    {
      var i :| 0 <= i < |list| && list[i].n == n;
      assert r'.frontier - MAX_PACKET_AGE <= At(Numbers(list), i) < r'.frontier;
    }
  }

  /** A NACK triggered by an arrival is the first one for its number, and the frontier has by then
      reached the wait line of its entry. */
  lemma ArrivalNacksWait(es: seq<Event>, e: Event, i: nat)
    requires SaneRun(es + [e]) && e.Packet? && i < |Asked(IdealRun(es), e)|
    ensures var x := Asked(IdealRun(es), e)[i];
            Count(IdealRun(es).log, x.n) == 0 &&
            exists w :: w in Picked(IdealRun(es), e) && w.n == x.n && w.sendAt <= IdealRun(es + [e]).frontier
  {
    RunOne(es, e);
    NackRefines(es);
    RunKeepsBooks(es);
    AskedHasWaited(IdealRun(es), e, i);
  }

  lemma AskedHasWaited(r: Ideal, e: Event, i: nat)
    requires Books(r) && Shaped(r) && Sane(r, e) && e.Packet? && i < |Asked(r, e)|
    ensures Count(r.log, Asked(r, e)[i].n) == 0
    ensures exists w :: w in Picked(r, e) && w.n == Asked(r, e)[i].n && w.sendAt <= IdealStep(r, e).frontier
  {
    var n := ReceivedAs(r, e.s);
    SentsAreDue(Picked(r, e), SeqNumOnly, n, e.now, r.rtt, i);
    var w :| w in Picked(r, e) && w.n == Asked(r, e)[i].n && IdealDue(w, SeqNumOnly, n, e.now, r.rtt);
    var j :| 0 <= j < |Picked(r, e)| && Picked(r, e)[j] == w;
    NewEntryOk(r, n, e.isKeyFrame, e.now, j);
  }

  lemma {:induction false} SentsAreDue(list: seq<Entry>, filter: NackFilter, frontier: int, now: int, rtt: int, i: nat)
    requires i < |Sents(list, filter, frontier, now, rtt)|
    ensures exists w :: w in list && w.n == Sents(list, filter, frontier, now, rtt)[i].n &&
                        IdealDue(w, filter, frontier, now, rtt)
  {
    var init, e := list[..|list| - 1], list[|list| - 1];
    if i < |Sents(init, filter, frontier, now, rtt)| {
      SentsAreDue(init, filter, frontier, now, rtt, i);
    }
  }

  /** The return value for a packet that arrives late is how often it was asked for, or 0 if it was not
      on the list. */
  lemma TimesNackedIsCount(es: seq<Event>, s: Seq16, isRetransmitted: bool)
    requires SaneRun(es) && IdealRun(es).started && AheadOf(Run(es).newest, s)
    ensures var r := IdealRun(es);
            var n := ReceivedAs(r, s);
            OldPacket(Run(es), s, isRetransmitted).timesNacked
            == if IsPending(r.list, n) then Count(r.log, n) else 0
  {
    NackRefines(es);
    RunKeepsBooks(es);
    var r := IdealRun(es);
    var n := ReceivedAs(r, s);
    AheadIsTotal(s, Low(r.frontier));
    IndexOfRefines(r.list, r.frontier, n);
    var i := CountBelow(Numbers(r.list), n);
    if IsPending(r.list, n) {
      var j :| 0 <= j < |r.list| && r.list[j].n == n;
      FoundAt(r.list, n, j);
      assert EntryOk(r.log, r.clock, r.list[j]);
    }
  }

  /** What OnReceivedPacket returns after any history, for any packet: how often its number was asked
      for, if it is pending, and 0 otherwise. */
  lemma {:induction false} ReturnsTimesNacked(es: seq<Event>, s: Seq16, isKeyFrame: bool, isRetransmitted: bool, now: int)
    requires SaneRun(es)
    ensures var r := IdealRun(es);
            var n := ReceivedAs(r, s);
            OnPacket(Run(es), s, isKeyFrame, isRetransmitted, now).timesNacked
            == if r.started && IsPending(r.list, n) then Count(r.log, n) else 0
  {
    NackRefines(es);
    var st, r := Run(es), IdealRun(es);
    if r.started {
      var n := ReceivedAs(r, s);
      if IsPending(r.list, n) {
        PendingIsBehind(r, n);
      }
      if AheadOf(st.newest, s) {
        TimesNackedIsCount(es, s, isRetransmitted);
      } else if s != st.newest {
        AheadIsTotal(s, st.newest);
      }
    }
  }

  lemma PendingIsBehind(r: Ideal, n: int)
    requires Shaped(r) && IsPending(r.list, n)
    ensures n < r.frontier
  {
    var i :| 0 <= i < |r.list| && r.list[i].n == n;
    assert At(Numbers(r.list), i) < r.frontier;
  }

  /** The wait line: at least half of the recent reordering distances lie below it, and below nothing
      smaller; without any it is 0. */
  lemma {:induction false} WaitIsMedian(es: seq<Event>, samples: seq<nat>)
    requires samples == Run(es).samples && SaneRun(es)
    ensures var w, n := H.Window(samples, MAX_REORDERING_PACKETS), WaitPackets(samples);
            if samples == [] then n == 0
            else 2 * H.Below(w, n) >= |w| && forall m: nat :: m < n ==> 2 * H.Below(w, m) < |w|
  {
    if samples != [] {
      SamplesSmall(es);
      MedianIs(H.Window(samples, MAX_REORDERING_PACKETS));
    }
  }

  lemma MedianIs(w: seq<nat>)
    requires forall i :: 0 <= i < |w| ==> w[i] < NUM_REORDERING_BUCKETS
    ensures var n := H.Quantile(w, 0.5, NUM_REORDERING_BUCKETS);
            2 * H.Below(w, n) >= |w| && forall m: nat :: m < n ==> 2 * H.Below(w, m) < |w|
  {
    var n := H.Quantile(w, 0.5, NUM_REORDERING_BUCKETS);
    H.QuantileIsLeast(w, 0.5, NUM_REORDERING_BUCKETS);
    HalfIs(w, n);
    forall m: nat | m < n ensures 2 * H.Below(w, m) < |w| {
      HalfIs(w, m);
      assert !H.Covers(w, 0.5, m);
    }
  }

  lemma HalfIs(w: seq<nat>, n: nat)
    ensures H.Covers(w, 0.5, n) <==> 2 * H.Below(w, n) >= |w|
  {
  }

  lemma {:induction false} SamplesSmall(es: seq<Event>)
    ensures forall i :: 0 <= i < |Run(es).samples| ==> Run(es).samples[i] < NUM_REORDERING_BUCKETS
  {
    if es != [] {
      SamplesSmall(es[..|es| - 1]);
      SamplesStep(Run(es[..|es| - 1]), es[|es| - 1]);
    }
  }

  lemma SamplesStep(st: Nack, e: Event)
    requires forall i :: 0 <= i < |st.samples| ==> st.samples[i] < NUM_REORDERING_BUCKETS
    ensures forall i :: 0 <= i < |Step(st, e).samples| ==> Step(st, e).samples[i] < NUM_REORDERING_BUCKETS
  {
  }

  /** An overflow gives up exactly what precedes the oldest key frame that makes room (FirstFit), or
      everything if none does. */
  lemma OverflowKeepsFromKeyFrame(r: Ideal, n: int, isKeyFrame: bool, now: int, m: int)
    requires Shaped(r) && n > r.frontier && !Fits(RecentList(r, n), n - r.frontier - 1)
    ensures var recent, ks := RecentList(r, n), RecentKeyFrames(r, n, isKeyFrame);
            var i := FirstFit(recent, ks, n - r.frontier - 1);
            IsPending(Entered(r, n, isKeyFrame, now).0, m) <==>
            i < |ks| && (r.frontier < m < n || (m >= ks[i] && IsPending(recent, m)))
  {
    assert Ascending(Numbers(RecentList(r, n))) by { RecentListed(r, n); }
    CrowdedRoom(RecentList(r, n), RecentKeyFrames(r, n, isKeyFrame), NewGap(r, n, now), m);
    GapPending(r, n, now, m);
  }

  lemma CrowdedRoom(list: seq<Entry>, ks: seq<int>, gap: seq<Entry>, m: int)
    requires Ascending(Numbers(list)) && !Fits(list, |gap|)
    ensures var i := FirstFit(list, ks, |gap|);
            IsPending(MakeRoom(list, ks, gap).0, m) <==>
            i < |ks| && (IsPending(gap, m) || (m >= ks[i] && IsPending(list, m)))
  {
    var i := FirstFit(list, ks, |gap|);
    if i < |ks| {
      PendingSplit(Since(list, ks[i]), gap, m);
      SincePending(list, ks[i], m);
    }
  }

  lemma GapPending(r: Ideal, n: int, now: int, m: int)
    requires n > r.frontier
    ensures IsPending(NewGap(r, n, now), m) <==> r.frontier < m < n
  {
    if r.frontier < m < n {
      assert NewGap(r, n, now)[m - r.frontier - 1].n == m;
    }
  }
}
