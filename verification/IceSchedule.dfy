/** The ping scheduler of an ICE transport as a state machine over values: which connection may be
    pinged next, and what a ping does to the two sets.  `C` names connections. */
module IceSchedule {
  import opened Options

  const WEAK_PING_INTERVAL := 48
  const STRONG_PING_INTERVAL := 480
  const STABLING_CONNECTION_PING_INTERVAL := 900
  const STABLE_CONNECTION_PING_INTERVAL := 2500
  const MIN_PINGS_AT_WEAK_PING_INTERVAL := 3
  const PING_INTERVAL_DIFF := 5
  const RTT_RATIO := 3
  const DEFAULT_RTT := 3000

  /** What the scheduler looks at in a connection; `unanswered` are the times of the pings sent since
      the last response. */
  datatype Conn = Conn(username: string, password: string, writable: bool, receiving: bool,
                       lastPingSent: int, numPingsSent: nat, rtt: int, rttSamples: nat, unanswered: seq<int>)
  {
    predicate HasCredentials() { username != "" && password != "" }

    predicate Weak() { !(writable && receiving) }

    predicate MissResponse(now: int) { unanswered != [] && now - unanswered[0] > 2 * rtt }

    predicate Stable(now: int) { rttSamples > RTT_RATIO + 1 && !MissResponse(now) }

    /** Ping(now): the request itself is not modelled. */
    function Ping(now: int): Conn {
      this.(lastPingSent := now, numPingsSent := numPingsSent + 1, unanswered := unanswered + [now])
    }
  }

  function Interval(c: Conn, weak: bool, now: int): int {
    if c.numPingsSent < MIN_PINGS_AT_WEAK_PING_INTERVAL then WEAK_PING_INTERVAL
    else if weak || !c.Stable(now) then STABLING_CONNECTION_PING_INTERVAL
    else STABLE_CONNECTION_PING_INTERVAL
  }

  predicate PastInterval(c: Conn, weak: bool, now: int) {
    now >= c.lastPingSent + Interval(c, weak, now)
  }

  predicate Pingable(c: Conn, weak: bool, now: int) {
    c.HasCredentials() && (weak || PastInterval(c, weak, now))
  }

  datatype Sched<!C(==)> = Sched(conns: map<C, Conn>, unpinged: set<C>, pinged: set<C>, selected: Option<C>)

  /** Every live connection is in exactly one of the two sets. */
  predicate Partition<C(==)>(s: Sched<C>) {
    s.unpinged !! s.pinged && s.unpinged + s.pinged == s.conns.Keys
  }

  /** The selected connection, if any, has not been destroyed. */
  predicate SelectedLives<C(==)>(s: Sched<C>) {
    s.selected.Some? ==> s.selected.value in s.conns
  }

  predicate Weak<C(==)>(s: Sched<C>)
    requires SelectedLives(s)
  {
    s.selected.None? || s.conns[s.selected.value].Weak()
  }

  predicate SelectedDue<C(==)>(s: Sched<C>, now: int)
    requires SelectedLives(s)
  {
    s.selected.Some? && s.conns[s.selected.value].writable && PastInterval(s.conns[s.selected.value], Weak(s), now)
  }

  predicate CanPing<C(==)>(s: Sched<C>, c: C, now: int)
    requires SelectedLives(s)
  {
    c in s.conns && Pingable(s.conns[c], Weak(s), now)
  }

  predicate NoneToPing<C(==)>(s: Sched<C>, now: int)
    requires SelectedLives(s)
  {
    forall c :: c in s.unpinged ==> !CanPing(s, c, now)
  }

  /** A search with nothing left to ping in this round starts the next one. */
  function Searched<C(==)>(s: Sched<C>, now: int): Sched<C>
    requires SelectedLives(s)
  {
    if !SelectedDue(s, now) && NoneToPing(s, now) then s.(unpinged := s.unpinged + s.pinged, pinged := {}) else s
  }

  /** `c` is among the longest unpinged of the round. */
  predicate Oldest<C(==)>(s: Sched<C>, c: C, now: int)
    requires SelectedLives(s)
  {
    c in s.unpinged && CanPing(s, c, now) &&
    forall d :: d in s.unpinged && CanPing(s, d, now) ==> s.conns[c].lastPingSent <= s.conns[d].lastPingSent
  }

  predicate OldestIfAny<C(==)>(s: Sched<C>, now: int, choice: Option<C>)
    requires SelectedLives(s)
  {
    if choice.None? then NoneToPing(s, now) else Oldest(s, choice.value, now)
  }

  /** The possible outcomes of a search; ties are broken by the order of pointers, which is left open. */
  predicate Finds<C(==)>(s: Sched<C>, now: int, choice: Option<C>)
    requires SelectedLives(s)
  {
    if SelectedDue(s, now) then choice == s.selected else OldestIfAny(Searched(s, now), now, choice)
  }

  /** A connection already marked stays where it is. */
  function Marked<C(==)>(s: Sched<C>, c: C): Sched<C> {
    if c in s.pinged then s else s.(pinged := s.pinged + {c}, unpinged := s.unpinged - {c})
  }

  function Pinged<C(==)>(s: Sched<C>, c: C, sentAt: int): Sched<C>
    requires c in s.conns
  {
    Marked(s.(conns := s.conns[c := s.conns[c].Ping(sentAt)]), c)
  }

  function Added<C(==)>(s: Sched<C>, c: C, conn: Conn): Sched<C> {
    s.(conns := s.conns[c := conn], unpinged := s.unpinged + {c})
  }

  /** The selected connection is not cleared, even if it is the one that goes. */
  function Destroyed<C(==)>(s: Sched<C>, c: C): Sched<C> {
    s.(conns := s.conns - {c}, unpinged := s.unpinged - {c}, pinged := s.pinged - {c})
  }

  /** How long to wait between two pings, of whichever connections. */
  function PingInterval<C(==)>(s: Sched<C>): int
    requires SelectedLives(s)
  {
    if Weak(s) || exists c :: c in s.conns && s.conns[c].numPingsSent < MIN_PINGS_AT_WEAK_PING_INTERVAL
    then WEAK_PING_INTERVAL else STRONG_PING_INTERVAL
  }

  /** Whether the timer callback searches at all, the channel having pinged last at `lastPing`. */
  predicate TimeToSearch<C(==)>(s: Sched<C>, lastPing: int, now: int)
    requires SelectedLives(s)
  {
    now >= lastPing - PING_INTERVAL_DIFF + PingInterval(s)
  }
}
