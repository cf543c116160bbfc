/** The NACK bookkeeping re-told over unbounded extended numbers with ordinary comparisons, and how the
    wrap-aware state of the code images it. */
module NackIdeal {
  import opened SeqNum
  import opened N = NackRequester
  import H = Histogram

  datatype Entry = Entry(n: int, sendAt: int, createdTime: int, sendAtTime: int, retries: nat)

  /** One NACK that went out: for number `n`, at `time`, with round-trip time `rtt` in force. */
  datatype Sent = Sent(n: int, time: int, rtt: int)

  /** `received`, `log` and `dropped` remember the whole history: what came, what was asked for, and
      what overflows gave up; `clock` is the latest time seen. */
  datatype Ideal = Ideal(started: bool, first: int, frontier: int, list: seq<Entry>, keyFrames: seq<int>,
                         rtt: int, samples: seq<nat>,
                         received: set<int>, log: seq<Sent>, dropped: set<int>, clock: int)

  const IDEAL_INITIAL := Ideal(false, 0, 0, [], [], DEFAULT_RTT_MS, [], {}, [], {}, 0)

  datatype Event =
    | Packet(s: Seq16, isKeyFrame: bool, isRetransmitted: bool, now: int)
    | Tick(now: int)
    | Rtt(ms: int)

  function Wire(e: Entry): NackInfo {
    NackInfo(Low(e.n), Low(e.sendAt), e.createdTime, e.sendAtTime, e.retries)
  }

  function WireAll(list: seq<Entry>): (w: seq<NackInfo>)
    ensures |w| == |list|
  {
    seq(|list|, i requires 0 <= i < |list| => Wire(list[i]))
  }

  function LowAll(ks: seq<int>): (w: seq<Seq16>)
    ensures |w| == |ks|
  {
    seq(|ks|, i requires 0 <= i < |ks| => Low(ks[i]))
  }

  function WirePair(p: (seq<Entry>, seq<int>)): (seq<NackInfo>, seq<Seq16>) {
    (WireAll(p.0), LowAll(p.1))
  }

  function Numbers(list: seq<Entry>): (ks: seq<int>)
    ensures |ks| == |list| && forall i :: 0 <= i < |ks| ==> ks[i] == list[i].n
  {
    seq(|list|, i requires 0 <= i < |list| => list[i].n)
  }

  /** ks[i]; quantifying over it keeps the verifier from comparing all pairs. */
  function At(ks: seq<int>, i: nat): int
    requires i < |ks|
  {
    ks[i]
  }

  predicate Ascending(ks: seq<int>) {
    forall i: nat, j: nat :: i < j < |ks| ==> At(ks, i) < At(ks, j)
  }

  predicate Within(ks: seq<int>, low: int, high: int) {
    forall i: nat :: i < |ks| ==> low <= At(ks, i) <= high
  }

  /** The first position from `i` on that holds at least `x`. */
  function CountFrom(ks: seq<int>, x: int, i: nat): (c: nat)
    requires i <= |ks|
    ensures c <= |ks|
    decreases |ks| - i
  {
    if i == |ks| || ks[i] >= x then i else CountFrom(ks, x, i + 1)
  }

  function CountBelow(ks: seq<int>, x: int): (c: nat)
    ensures c <= |ks|
  {
    CountFrom(ks, x, 0)
  }

  function Since(list: seq<Entry>, x: int): seq<Entry> {
    list[CountBelow(Numbers(list), x)..]
  }

  function KeysSince(ks: seq<int>, x: int): seq<int> {
    ks[CountBelow(ks, x)..]
  }

  /** The missing numbers between frontier and newcomer. */
  function Gap(start: int, count: nat, wait: nat, now: int): (g: seq<Entry>)
    ensures |g| == count
  {
    seq(count, i requires 0 <= i < count => Entry(start + i, start + i + wait, now, -1, 0))
  }

  predicate Fits(list: seq<Entry>, incoming: nat) {
    |list| + incoming <= MAX_NACK_PACKETS
  }

  function FirstFitFrom(list: seq<Entry>, ks: seq<int>, incoming: nat, i: nat): (c: nat)
    requires i <= |ks|
    ensures c <= |ks|
    decreases |ks| - i
  {
    if i == |ks| || Fits(Since(list, ks[i]), incoming) then i else FirstFitFrom(list, ks, incoming, i + 1)
  }

  /** The oldest key frame such that giving up everything before it makes room, or |ks|. */
  function FirstFit(list: seq<Entry>, ks: seq<int>, incoming: nat): (c: nat)
    ensures c <= |ks|
  {
    FirstFitFrom(list, ks, incoming, 0)
  }

  function MakeRoom(list: seq<Entry>, ks: seq<int>, gap: seq<Entry>): (seq<Entry>, seq<int>) {
    if Fits(list, |gap|) then (list + gap, ks)
    else
      var i := FirstFit(list, ks, |gap|);
      (if i < |ks| then Since(list, ks[i]) + gap else [], ks[i..])
  }

  predicate IdealDue(e: Entry, filter: NackFilter, frontier: int, now: int, rtt: int) {
    && now - e.createdTime >= 0
    && ((filter != TimeOnly && e.sendAtTime == -1 && frontier >= e.sendAt) ||
        (filter != SeqNumOnly && now - e.sendAtTime > rtt))
  }

  function Sents(list: seq<Entry>, filter: NackFilter, frontier: int, now: int, rtt: int): seq<Sent> {
    if list == [] then []
    else
      var e := list[|list| - 1];
      Sents(list[..|list| - 1], filter, frontier, now, rtt) +
      if IdealDue(e, filter, frontier, now, rtt) then [Sent(e.n, now, rtt)] else []
  }

  function IdealMarked(e: Entry, now: int): seq<Entry> {
    if e.retries + 1 >= MAX_NACK_RETRIES then [] else [e.(retries := e.retries + 1, sendAtTime := now)]
  }

  function Remaining(list: seq<Entry>, filter: NackFilter, frontier: int, now: int, rtt: int): seq<Entry> {
    if list == [] then []
    else
      var e := list[|list| - 1];
      Remaining(list[..|list| - 1], filter, frontier, now, rtt) +
      if IdealDue(e, filter, frontier, now, rtt) then IdealMarked(e, now) else [e]
  }

  function IdealBatch(r: Ideal, filter: NackFilter, now: int): Ideal {
    r.(list := Remaining(r.list, filter, r.frontier, now, r.rtt),
       log := r.log + Sents(r.list, filter, r.frontier, now, r.rtt))
  }

  function IdealFirst(r: Ideal, s: Seq16, isKeyFrame: bool): Ideal {
    r.(started := true, first := s, frontier := s, received := {s},
       keyFrames := if isKeyFrame then [s] else [])
  }

  /** The list without the entry for `n`, if there is one. */
  function Without(list: seq<Entry>, n: int): seq<Entry> {
    var i := CountBelow(Numbers(list), n);
    if i < |list| && list[i].n == n then list[..i] + list[i + 1..] else list
  }

  function IdealOld(r: Ideal, n: int, isRetransmitted: bool): Ideal
    requires n < r.frontier
  {
    r.(received := r.received + {n}, list := Without(r.list, n),
       samples := if isRetransmitted then r.samples
                  else r.samples + [H.Clamp(r.frontier - n, NUM_REORDERING_BUCKETS)])
  }

  /** The key frames kept when the frontier moves to `n`. */
  function RecentKeyFrames(r: Ideal, n: int, isKeyFrame: bool): seq<int> {
    KeysSince(if isKeyFrame then r.keyFrames + [n] else r.keyFrames, n - MAX_PACKET_AGE)
  }

  function RecentList(r: Ideal, n: int): seq<Entry> {
    Since(r.list, n - MAX_PACKET_AGE)
  }

  function NewGap(r: Ideal, n: int, now: int): seq<Entry>
    requires n > r.frontier
  {
    Gap(r.frontier + 1, n - r.frontier - 1, WaitPackets(r.samples), now)
  }

  /** The list and the key frames once the gap below `n` is entered. */
  function Entered(r: Ideal, n: int, isKeyFrame: bool, now: int): (seq<Entry>, seq<int>)
    requires n > r.frontier
  {
    MakeRoom(RecentList(r, n), RecentKeyFrames(r, n, isKeyFrame), NewGap(r, n, now))
  }

  predicate IsPending(list: seq<Entry>, n: int) {
    exists i :: 0 <= i < |list| && list[i].n == n
  }

  /** The new frontier `n` overflows the list, and the overflow gives up number `m`: it precedes the
      oldest key frame that makes room, or no key frame does. */
  predicate GivesUp(r: Ideal, n: int, isKeyFrame: bool, m: int)
    requires n > r.frontier
  {
    var recent, ks, incoming := RecentList(r, n), RecentKeyFrames(r, n, isKeyFrame), n - r.frontier - 1;
    var i := FirstFit(recent, ks, incoming);
    !Fits(recent, incoming) &&
    if i < |ks| then IsPending(recent, m) && m < ks[i] else IsPending(recent, m) || r.frontier < m < n
  }

  function AllGivenUp(r: Ideal, n: int, isKeyFrame: bool): set<int>
    requires n > r.frontier
  {
    var all := RecentList(r, n) + NewGap(r, n, 0);
    set i | 0 <= i < |all| && GivesUp(r, n, isKeyFrame, all[i].n) :: all[i].n
  }

  function IdealNew(r: Ideal, n: int, isKeyFrame: bool, now: int): Ideal
    requires n > r.frontier
  {
    r.(frontier := n, received := r.received + {n},
       list := Entered(r, n, isKeyFrame, now).0, keyFrames := Entered(r, n, isKeyFrame, now).1,
       dropped := r.dropped + AllGivenUp(r, n, isKeyFrame))
  }

  function ReceivedAs(r: Ideal, s: Seq16): int {
    if r.started then Nearest(r.frontier, s) else s
  }

  function IdealPacket(r: Ideal, s: Seq16, isKeyFrame: bool, isRetransmitted: bool, now: int): Ideal {
    var n := ReceivedAs(r, s);
    if !r.started then IdealFirst(r, s, isKeyFrame)
    else if n == r.frontier then r
    else if n < r.frontier then IdealOld(r, n, isRetransmitted)
    else IdealBatch(IdealNew(r, n, isKeyFrame, now), SeqNumOnly, now)
  }

  function IdealStep(r: Ideal, e: Event): Ideal {
    match e
    case Packet(s, key, retransmitted, now) => IdealPacket(r, s, key, retransmitted, now).(clock := now)
    case Tick(now) => IdealBatch(r, TimeOnly, now).(clock := now)
    case Rtt(ms) => r.(rtt := ms)
  }

  function Step(st: Nack, e: Event): Nack {
    match e
    case Packet(s, key, retransmitted, now) => OnPacket(st, s, key, retransmitted, now).state
    case Tick(now) => Batch(st, TimeOnly, now).0
    case Rtt(ms) => st.(rtt := ms)
  }

  /** The batch an event makes the requester signal. */
  function Signalled(st: Nack, e: Event): seq<Seq16> {
    match e
    case Packet(s, key, retransmitted, now) => OnPacket(st, s, key, retransmitted, now).batch
    case Tick(now) => Batch(st, TimeOnly, now).1
    case Rtt(_) => []
  }

  function Run(es: seq<Event>): Nack {
    if es == [] then N.INITIAL else Step(Run(es[..|es| - 1]), es[|es| - 1])
  }

  function IdealRun(es: seq<Event>): Ideal {
    if es == [] then IDEAL_INITIAL else IdealStep(IdealRun(es[..|es| - 1]), es[|es| - 1])
  }

  /** Time does not run backward, and the frontier never jumps so far that the wrap comparator stops
      being an order: less than 2^15, and less than 2^15 - 10000 for a key frame. */
  predicate Sane(r: Ideal, e: Event) {
    match e
    case Packet(s, key, _, now) =>
      now >= r.clock &&
      (r.started ==> ReceivedAs(r, s) - r.frontier < if key then 0x8000 - MAX_PACKET_AGE else 0x8000)
    case Tick(now) => now >= r.clock
    case Rtt(_) => true
  }

  predicate SaneRun(es: seq<Event>) {
    es == [] || (SaneRun(es[..|es| - 1]) && Sane(IdealRun(es[..|es| - 1]), es[|es| - 1]))
  }

  // ----- shape: sorted, recent, few

  predicate Brief(list: seq<Entry>, i: nat)
    requires i < |list|
  {
    list[i].n <= list[i].sendAt <= list[i].n + NUM_REORDERING_BUCKETS
  }

  predicate WaitsBriefly(list: seq<Entry>) {
    forall i: nat :: i < |list| ==> Brief(list, i)
  }

  /** Entries in order of age within the given numbers. */
  predicate Listed(list: seq<Entry>, low: int, high: int) {
    Ascending(Numbers(list)) && Within(Numbers(list), low, high) && WaitsBriefly(list)
  }

  predicate KeysListed(ks: seq<int>, low: int, high: int) {
    Ascending(ks) && Within(ks, low, high)
  }

  /** A list and its anchors in order for frontier `n`. */
  predicate Tidy(p: (seq<Entry>, seq<int>), n: int) {
    && Listed(p.0, n - MAX_PACKET_AGE, n - 1) && |p.0| <= MAX_NACK_PACKETS
    && KeysListed(p.1, n - MAX_PACKET_AGE, n)
  }

  predicate Shaped(r: Ideal) {
    && Tidy((r.list, r.keyFrames), r.frontier)
    && (!r.started ==> r.list == [] && r.keyFrames == [])
  }

  ghost predicate Refines(st: Nack, r: Ideal) {
    && st.initialized == r.started && st.newest == Low(r.frontier)
    && st.list == WireAll(r.list) && st.keyFrames == LowAll(r.keyFrames)
    && st.rtt == r.rtt && st.samples == r.samples
  }

  /** Less than half a circle around `x`. */
  predicate Near(ks: seq<int>, x: int) {
    forall i: nat :: i < |ks| ==> -0x8000 < x - At(ks, i) < 0x8000
  }

  /** All anchors and entries lie within reach of the comparator. */
  predicate Evictable(list: seq<Entry>, ks: seq<int>, n: int) {
    Listed(list, n - MAX_PACKET_AGE, n) && KeysListed(ks, n - MAX_PACKET_AGE, n)
  }

  /** What the loop over RemovePacketsUntilKeyFrame leaves: the anchors from `i` on are tried until one
      makes room. */
  function Evicted(list: seq<Entry>, ks: seq<int>, incoming: nat, i: nat): (seq<Entry>, seq<int>)
    requires i <= |ks|
    decreases |ks| - i
  {
    if i == |ks| then (list, [])
    else if Fits(Since(list, ks[i]), incoming) then (Since(list, ks[i]), ks[i..])
    else Evicted(Since(list, ks[i]), ks, incoming, i + 1)
  }

  function LowNumbers(sents: seq<Sent>): seq<Seq16> {
    seq(|sents|, i requires 0 <= i < |sents| => Low(sents[i].n))
  }
}
