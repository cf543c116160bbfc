/** Ping rounds: the two sets always partition the live connections, the scheduler serves the least
    recently pinged connection, and nobody waits for more than one round. */
module IceTheorems {
  import opened Options
  import opened IceSchedule

  // ----- every run

  /** What happens to a scheduler: connections come and go, one is selected, the timer callback searches
      and pings, and the rest of ICE changes the attributes of connections. */
  datatype Event<!C(==)> =
    | NewConnection(c: C, conn: Conn)
    | Gone(c: C)
    | Select(choice: Option<C>)
    | Check(now: int, sentAt: int, choice: Option<C>)
    | Elsewhere(conns: map<C, Conn>)

  /** `lastPing` is when the channel pinged last, whichever connection. */
  datatype System<!C(==)> = System(s: Sched<C>, clock: int, lastPing: int)

  function Initial<C(==)>(): System<C> {
    System(Sched(map[], {}, {}, None), 0, 0)
  }

  /** New connections are new and have never been pinged; time does not run backward; the selected
      connection has not been destroyed when the timer fires; only pings change the time of the last
      ping and the number of pings. */
  predicate Allowed<C(==)>(y: System<C>, e: Event<C>) {
    match e
    case NewConnection(c, conn) => c !in y.s.conns && conn.lastPingSent == 0 && conn.numPingsSent == 0
    case Gone(_) => true
    case Select(choice) => choice.Some? ==> choice.value in y.s.conns
    case Check(now, sentAt, choice) =>
      SelectedLives(y.s) && y.clock <= now <= sentAt &&
      if TimeToSearch(y.s, y.lastPing, now) then Finds(y.s, now, choice) else choice.None?
    case Elsewhere(conns) => conns.Keys == y.s.conns.Keys && SamePings(y.s.conns, conns)
  }

  predicate SamePings<C(==)>(a: map<C, Conn>, b: map<C, Conn>)
    requires a.Keys == b.Keys
  {
    forall c :: c in a ==> b[c].lastPingSent == a[c].lastPingSent && b[c].numPingsSent == a[c].numPingsSent
  }

  predicate SameTimes<C(==)>(a: map<C, Conn>, b: map<C, Conn>)
    requires a.Keys == b.Keys
  {
    forall c :: c in a ==> b[c].lastPingSent == a[c].lastPingSent
  }

  function AfterCheck<C(==)>(y: System<C>, now: int, sentAt: int, choice: Option<C>): System<C> {
    if !SelectedLives(y.s) || !TimeToSearch(y.s, y.lastPing, now) then y.(clock := sentAt)
    else if choice.Some? && choice.value in y.s.conns
    then System(Pinged(Searched(y.s, now), choice.value, sentAt), sentAt, sentAt)
    else System(Searched(y.s, now), sentAt, y.lastPing)
  }

  function Step<C(==)>(y: System<C>, e: Event<C>): System<C> {
    match e
    case NewConnection(c, conn) => y.(s := Added(y.s, c, conn))
    case Gone(c) => y.(s := Destroyed(y.s, c))
    case Select(choice) => y.(s := y.s.(selected := choice))
    case Check(now, sentAt, choice) => AfterCheck(y, now, sentAt, choice)
    case Elsewhere(conns) => y.(s := y.s.(conns := conns))
  }

  function Run<C(==)>(es: seq<Event<C>>): System<C> {
    if es == [] then Initial() else Step(Run(es[..|es| - 1]), es[|es| - 1])
  }

  predicate Lawful<C(==)>(es: seq<Event<C>>) {
    es == [] || (Lawful(es[..|es| - 1]) && Allowed(Run(es[..|es| - 1]), es[|es| - 1]))
  }

  /** Whoever was pinged in this round was pinged no earlier than anybody who was not. */
  predicate Recent<C(==)>(s: Sched<C>)
    requires Partition(s)
  {
    forall a, b :: a in s.pinged && b in s.unpinged ==> s.conns[b].lastPingSent <= s.conns[a].lastPingSent
  }

  predicate NoneLater<C(==)>(s: Sched<C>, clock: int) {
    forall c :: c in s.conns ==> 0 <= s.conns[c].lastPingSent <= clock
  }

  predicate RoundsOk<C(==)>(y: System<C>) {
    Partition(y.s) && Recent(y.s) && NoneLater(y.s, y.clock) && y.clock >= 0
  }

  lemma FoundIsLive<C>(s: Sched<C>, now: int, choice: Option<C>)
    requires SelectedLives(s) && Finds(s, now, choice) && choice.Some?
    ensures choice.value in s.conns
  {
  }

  lemma SearchKeeps<C>(s: Sched<C>, now: int)
    requires Partition(s) && SelectedLives(s)
    ensures var s' := Searched(s, now);
            s'.conns == s.conns && Partition(s') && (Recent(s) ==> Recent(s'))
  {
  }

  lemma PingKeeps<C>(s: Sched<C>, c: C, sentAt: int)
    requires Partition(s) && c in s.conns
    ensures Partition(Pinged(s, c, sentAt))
    ensures Recent(s) && NoneLater(s, sentAt) ==> Recent(Pinged(s, c, sentAt)) && NoneLater(Pinged(s, c, sentAt), sentAt)
  {
    assert c in s.pinged || c in s.unpinged;
  }

  lemma StepKeeps<C>(y: System<C>, e: Event<C>)
    requires RoundsOk(y) && Allowed(y, e)
    ensures RoundsOk(Step(y, e))
  {
    match e
    case NewConnection(c, conn) =>
      assert c !in y.s.unpinged && c !in y.s.pinged;
    case Check(now, sentAt, choice) =>
      SearchKeeps(y.s, now);
      if choice.Some? {
        FoundIsLive(y.s, now, choice);
        PingKeeps(Searched(y.s, now), choice.value, sentAt);
      }
    case _ =>
  }

  /** In every run the two sets partition the live connections, and the order of pings shows in them. */
  lemma {:induction false} RoundsAlwaysOk<C>(es: seq<Event<C>>)
    requires Lawful(es)
    ensures RoundsOk(Run(es))
  {
    if es != [] {
      RoundsAlwaysOk(es[..|es| - 1]);
      StepKeeps(Run(es[..|es| - 1]), es[|es| - 1]);
    }
  }

  /** Marking keeps the partition exactly if the connection is live: marking one that was destroyed in
      between would leave a stray pointer behind. */
  lemma MarkKeepsPartition<C>(s: Sched<C>, c: C)
    requires Partition(s)
    ensures Partition(Marked(s, c)) <==> c in s.conns
  {
    assert c in Marked(s, c).pinged;
  }

  /** The selected connection stays valid through a destruction exactly if it is not the one destroyed. */
  lemma DestructionDangles<C>(s: Sched<C>, c: C)
    requires SelectedLives(s)
    ensures SelectedLives(Destroyed(s, c)) <==> s.selected != Some(c)
  {
  }

  // ----- rounds

  /** While no writable connection is selected, whoever has credentials can be pinged. */
  function Credentialed<C(==)>(s: Sched<C>): set<C> {
    set c | c in s.conns && s.conns[c].HasCredentials()
  }

  predicate Unselected<C(==)>(s: Sched<C>) {
    SelectedLives(s) && (s.selected.Some? ==> !s.conns[s.selected.value].writable)
  }

  lemma CredentialedCanPing<C>(s: Sched<C>, now: int)
    requires Unselected(s)
    ensures !SelectedDue(s, now) && forall c :: CanPing(s, c, now) <==> c in Credentialed(s)
  {
  }

  /** One ping: a search finds `c`, which is pinged and marked. */
  datatype Turn<!C(==)> = Turn(s: Sched<C>, now: int, sentAt: int, c: C)

  predicate TurnOk<C(==)>(t: Turn<C>) {
    Partition(t.s) && Unselected(t.s) && Finds(t.s, t.now, Some(t.c))
  }

  function Next<C(==)>(t: Turn<C>): Sched<C>
    requires TurnOk(t)
  {
    FoundIsLive(t.s, t.now, Some(t.c));
    Pinged(Searched(t.s, t.now), t.c, t.sentAt)
  }

  /** Between two pings anything may change but who is there, who was pinged, and who has credentials. */
  predicate Undisturbed<C(==)>(a: Sched<C>, b: Sched<C>) {
    && a.conns.Keys == b.conns.Keys && a.unpinged == b.unpinged && a.pinged == b.pinged
    && SameTimes(a.conns, b.conns) && Credentialed(a) == Credentialed(b)
  }

  predicate Turns<C(==)>(ts: seq<Turn<C>>) {
    ts == [] ||
    (TurnOk(ts[0]) && Turns(ts[1..]) && (|ts| > 1 ==> Undisturbed(Next(ts[0]), ts[1].s)))
  }

  /** A search finds nobody exactly if nobody can be pinged: neither the selected connection is due nor
      can any other be pinged, whichever set it is in. */
  lemma SomeoneIsFound<C>(s: Sched<C>, now: int)
    requires Partition(s) && SelectedLives(s)
    ensures Finds(s, now, None) <==> !SelectedDue(s, now) && forall c :: c in s.conns ==> !CanPing(s, c, now)
  {
    var s' := Searched(s, now);
    SearchKeeps(s, now);
    if !SelectedDue(s, now) && NoneToPing(s, now) {
      assert forall c :: c in s.conns ==> c in s'.unpinged && CanPing(s', c, now) == CanPing(s, c, now);
    }
  }

  /** While no writable connection is selected, as long as somebody has credentials. */
  lemma SomeoneWithCredentialsIsFound<C>(s: Sched<C>, now: int)
    requires Partition(s) && Unselected(s)
    ensures Finds(s, now, None) <==> Credentialed(s) == {}
  {
    CredentialedCanPing(s, now);
    SomeoneIsFound(s, now);
  }

  /** A ping moves one of them out of the round; a finished round starts over with all of them. */
  lemma TurnMoves<C>(t: Turn<C>)
    requires TurnOk(t)
    ensures var left := t.s.unpinged * Credentialed(t.s);
            var round := if left == {} then Credentialed(t.s) else left;
            t.c in round && Next(t).unpinged * Credentialed(Next(t)) == round - {t.c} &&
            Credentialed(Next(t)) == Credentialed(t.s) && Partition(Next(t))
  {
    CredentialedCanPing(t.s, t.now);
    SearchKeeps(t.s, t.now);
    var m := Searched(t.s, t.now);
    CredentialedCanPing(m, t.now);
    FoundIsLive(t.s, t.now, Some(t.c));
    PingKeeps(m, t.c, t.sentAt);
    SearchedRound(t.s, t.now);
    assert Credentialed(Next(t)) == Credentialed(t.s);
  }

  lemma SearchedRound<C>(s: Sched<C>, now: int)
    requires Partition(s) && Unselected(s)
    ensures var left := s.unpinged * Credentialed(s);
            Searched(s, now).unpinged * Credentialed(s) == if left == {} then Credentialed(s) else left
  {
    CredentialedCanPing(s, now);
    var left := s.unpinged * Credentialed(s);
    if left == {} {
      assert forall c :: c in s.unpinged && c in Credentialed(s) ==> c in left;
      assert NoneToPing(s, now);
      assert (s.unpinged + s.pinged) * Credentialed(s) == Credentialed(s);
    } else {
      var c :| c in left;
      assert c in s.unpinged && CanPing(s, c, now);
    }
  }

  /** How many pings until `d` is served at the latest: what is left of this round, and another whole
      one if `d` had its turn. */
  function Owed<C(==)>(s: Sched<C>, d: C): nat {
    |s.unpinged * Credentialed(s)| + if d in s.unpinged then 0 else |Credentialed(s)|
  }

  lemma OwedDecreases<C>(t: Turn<C>, d: C)
    requires TurnOk(t) && d in Credentialed(t.s) && t.c != d
    ensures Owed(Next(t), d) < Owed(t.s, d)
  {
    TurnMoves(t);
    var left, all := t.s.unpinged * Credentialed(t.s), Credentialed(t.s);
    var round := if left == {} then all else left;
    assert |round - {t.c}| == |round| - 1;
    assert d in Next(t).unpinged <==> d in Next(t).unpinged * Credentialed(Next(t));
  }

  /** `d` is pinged in one of the first `k` turns. */
  predicate Served<C(==)>(ts: seq<Turn<C>>, d: C, k: nat) {
    exists i :: 0 <= i < |ts| && i < k && ts[i].c == d
  }

  lemma ServedLater<C>(ts: seq<Turn<C>>, d: C, k: nat, limit: nat)
    requires ts != [] && Served(ts[1..], d, k) && k < limit
    ensures Served(ts, d, limit)
  {
    var i :| 0 <= i < |ts| - 1 && i < k && ts[1..][i].c == d;
    assert ts[i + 1].c == d;
  }

  lemma {:induction false} ServedInTime<C>(ts: seq<Turn<C>>, d: C)
    requires Turns(ts) && ts != [] && d in Credentialed(ts[0].s) && |ts| >= Owed(ts[0].s, d)
    ensures Served(ts, d, Owed(ts[0].s, d))
    decreases |ts|
  {
    TurnMoves(ts[0]);
    if ts[0].c == d {
      OwedPositive(ts[0].s, d);
    } else {
      OwedDecreases(ts[0], d);
      OwedPositive(Next(ts[0]), d);
      assert ts[1..][0] == ts[1];
      ServedInTime(ts[1..], d);
      ServedLater(ts, d, Owed(ts[1].s, d), Owed(ts[0].s, d));
    }
  }

  lemma OwedPositive<C>(s: Sched<C>, d: C)
    requires d in Credentialed(s) && Partition(s)
    ensures Owed(s, d) > 0
  {
    if d in s.unpinged {
      assert d in s.unpinged * Credentialed(s);
    }
  }

  /** From any state whatsoever and with any clock, each of n connections with credentials is pinged
      within 2n - 1 successive pings. */
  lemma EveryoneIsPinged<C>(ts: seq<Turn<C>>, d: C)
    requires Turns(ts) && ts != [] && d in Credentialed(ts[0].s) && |ts| >= 2 * |Credentialed(ts[0].s)| - 1
    ensures |Credentialed(ts[0].s)| >= 1 && Served(ts, d, 2 * |Credentialed(ts[0].s)| - 1)
  {
    var s := ts[0].s;
    var left, all := s.unpinged * Credentialed(s), Credentialed(s);
    Smaller(left, all);
    if d !in s.unpinged {
      Smaller(left, all - {d});
    }
    ServedInTime(ts, d);
  }

  lemma {:induction false} Smaller<C>(a: set<C>, b: set<C>)
    requires a <= b
    ensures |a| <= |b|
  {
    assert b == a + (b - a);
  }

  // ----- the two sets are a fast form of "least recently pinged first"

  /** The search looks at one set only, and yet finds the selected connection if it is due, and else the
      longest unpinged of all that can be pinged. */
  lemma LeastRecentFirst<C>(s: Sched<C>, now: int, c: C)
    requires Partition(s) && Recent(s) && SelectedLives(s) && Finds(s, now, Some(c))
    ensures c in s.conns && if SelectedDue(s, now) then s.selected == Some(c) else CanPing(s, c, now)
    ensures !SelectedDue(s, now) ==>
              forall e :: CanPing(s, e, now) ==> s.conns[c].lastPingSent <= s.conns[e].lastPingSent
  {
    SearchKeeps(s, now);
    FoundIsLive(s, now, Some(c));
    assert CanPing(Searched(s, now), c, now) == CanPing(s, c, now);
  }

  /** Those with credentials that may still come before `d`. */
  function Before<C(==)>(s: Sched<C>, d: C): set<C>
    requires d in s.conns
  {
    set c | c in Credentialed(s) && c != d && s.conns[c].lastPingSent <= s.conns[d].lastPingSent
  }

  lemma BeforeShrinks<C>(t: Turn<C>, d: C)
    requires TurnOk(t) && Recent(t.s) && d in Credentialed(t.s) && t.c != d && t.s.conns[d].lastPingSent < t.sentAt
    ensures d in Next(t).conns && t.c in Before(t.s, d) && Before(Next(t), d) == Before(t.s, d) - {t.c}
  {
    CredentialedCanPing(t.s, t.now);
    LeastRecentFirst(t.s, t.now, t.c);
    SearchKeeps(t.s, t.now);
    TurnMoves(t);
  }

  /** The clock has advanced since all earlier pings. */
  predicate Ticking<C(==)>(ts: seq<Turn<C>>) {
    forall i :: 0 <= i < |ts| ==> forall c :: c in ts[i].s.conns ==> 0 <= ts[i].s.conns[c].lastPingSent < ts[i].sentAt
  }

  lemma {:induction false} ServedInOrder<C>(ts: seq<Turn<C>>, d: C)
    requires Turns(ts) && Ticking(ts) && ts != [] && Recent(ts[0].s) && d in Credentialed(ts[0].s)
    requires |ts| > |Before(ts[0].s, d)|
    ensures Served(ts, d, |Before(ts[0].s, d)| + 1)
    decreases |ts|
  {
    if ts[0].c != d {
      var t := ts[0];
      BeforeShrinks(t, d);
      TurnMoves(t);
      assert |Before(Next(t), d)| == |Before(t.s, d)| - 1;
      NextRecent(t);
      UndisturbedKeeps(Next(t), ts[1].s, d);
      assert ts[1..][0] == ts[1];
      ServedInOrder(ts[1..], d);
      ServedLater(ts, d, |Before(ts[1].s, d)| + 1, |Before(ts[0].s, d)| + 1);
    }
  }

  lemma NextRecent<C>(t: Turn<C>)
    requires TurnOk(t) && Recent(t.s) && NoneLater(t.s, t.sentAt)
    ensures Partition(Next(t)) && Recent(Next(t))
  {
    SearchKeeps(t.s, t.now);
    FoundIsLive(t.s, t.now, Some(t.c));
    PingKeeps(Searched(t.s, t.now), t.c, t.sentAt);
  }

  lemma UndisturbedKeeps<C>(a: Sched<C>, b: Sched<C>, d: C)
    requires Undisturbed(a, b) && Partition(a) && Recent(a) && d in a.conns
    ensures Partition(b) && Recent(b) && Before(b, d) == Before(a, d)
  {
  }

  /** In every run, while no writable connection is selected and the clock advances between pings, each
      of n connections with credentials is pinged within n successive pings. */
  lemma EveryoneIsPingedInOneRound<C>(es: seq<Event<C>>, ts: seq<Turn<C>>, d: C)
    requires Lawful(es) && Turns(ts) && Ticking(ts) && ts != [] && ts[0].s == Run(es).s
    requires d in Credentialed(ts[0].s) && |ts| >= |Credentialed(ts[0].s)|
    ensures Served(ts, d, |Credentialed(ts[0].s)|)
  {
    RoundsAlwaysOk(es);
    var all := Credentialed(ts[0].s);
    Smaller(Before(ts[0].s, d), all - {d});
    ServedInOrder(ts, d);
  }

  // ----- how often

  /** The selected connection is writable and receiving. */
  predicate Strong<C(==)>(s: Sched<C>) {
    s.selected.Some? && s.selected.value in s.conns &&
    s.conns[s.selected.value].writable && s.conns[s.selected.value].receiving
  }

  /** The round-trip time has been measured more than four times, and the oldest unanswered ping, if any,
      is not older than twice that time. */
  predicate Settled(c: Conn, now: int) {
    c.rttSamples > 4 && (c.unanswered == [] || now - c.unanswered[0] <= 2 * c.rtt)
  }

  /** How many milliseconds a connection rests between pings. */
  function Rest(c: Conn, strong: bool, now: int): int {
    if c.numPingsSent < 3 then 48 else if strong && Settled(c, now) then 2500 else 900
  }

  /** Who can be pinged: anybody with credentials, but those that have rested only, while the selected
      connection is writable and receiving. */
  lemma WhoCanBePinged<C>(s: Sched<C>, c: C, now: int)
    requires SelectedLives(s)
    ensures CanPing(s, c, now) <==>
              c in s.conns && s.conns[c].username != "" && s.conns[c].password != "" &&
              (Strong(s) ==> now - s.conns[c].lastPingSent >= Rest(s.conns[c], true, now))
    ensures SelectedDue(s, now) <==>
              s.selected.Some? && s.conns[s.selected.value].writable &&
              now - s.conns[s.selected.value].lastPingSent >= Rest(s.conns[s.selected.value], Strong(s), now)
  {
  }

  /** The channel as a whole pings every 480 ms once the selected connection is writable and receiving and
      everybody was pinged three times, and every 48 ms before. */
  lemma TwoIntervals<C>(s: Sched<C>)
    requires SelectedLives(s)
    ensures PingInterval(s) == if Strong(s) && forall c :: c in s.conns ==> s.conns[c].numPingsSent >= 3 then 480 else 48
  {
  }

  /** The times an event pings `c`. */
  function PingOf<C(==)>(y: System<C>, e: Event<C>, c: C): seq<int> {
    if e.Check? && e.choice == Some(c) then [e.sentAt] else []
  }

  /** All pings of `c` since it was last added, in a run. */
  function PingsOf<C(==)>(es: seq<Event<C>>, c: C): seq<int> {
    if es == [] then []
    else
      var before, e := es[..|es| - 1], es[|es| - 1];
      if e.NewConnection? && e.c == c then [] else PingsOf(before, c) + PingOf(Run(before), e, c)
  }

  /** All pings of the channel. */
  function AllPings<C(==)>(es: seq<Event<C>>): seq<int> {
    if es == [] then []
    else AllPings(es[..|es| - 1]) + if es[|es| - 1].Check? && es[|es| - 1].choice.Some? then [es[|es| - 1].sentAt] else []
  }

  /** The last of some times, or 0. */
  function Last(times: seq<int>): int {
    if times == [] then 0 else times[|times| - 1]
  }

  predicate Noted(conn: Conn, pings: seq<int>) {
    conn.numPingsSent == |pings| && conn.lastPingSent == Last(pings)
  }

  lemma NotedStep<C>(y: System<C>, e: Event<C>, c: C, pings: seq<int>)
    requires RoundsOk(y) && Allowed(y, e) && (c in y.s.conns ==> Noted(y.s.conns[c], pings))
    requires c in Step(y, e).s.conns
    ensures Noted(Step(y, e).s.conns[c], if e.NewConnection? && e.c == c then [] else pings + PingOf(y, e, c))
  {
    match e
    case Check(now, sentAt, choice) =>
      SearchKeeps(y.s, now);
      assert pings + [] == pings;
      if choice.Some? {
        FoundIsLive(y.s, now, choice);
      }
    case _ => assert pings + [] == pings;
  }

  /** What a connection remembers is how often and when it was last pinged since it was added. */
  lemma {:induction false} PingsAreNoted<C>(es: seq<Event<C>>, c: C)
    requires Lawful(es) && c in Run(es).s.conns
    ensures Noted(Run(es).s.conns[c], PingsOf(es, c))
  {
    if es != [] {
      var before, e := es[..|es| - 1], es[|es| - 1];
      RoundsAlwaysOk(before);
      if c in Run(before).s.conns {
        PingsAreNoted(before, c);
      }
      NotedStep(Run(before), e, c, PingsOf(before, c));
    }
  }

  lemma {:induction false} LastPingIsNoted<C>(es: seq<Event<C>>)
    requires Lawful(es)
    ensures Run(es).lastPing == Last(AllPings(es))
  {
    if es != [] {
      var before, e := es[..|es| - 1], es[|es| - 1];
      LastPingIsNoted(before);
      if e.Check? && e.choice.Some? {
        FoundIsLive(Run(before).s, e.now, e.choice);
      }
    }
  }

  /** In every run, while the selected connection is writable and receiving, a ping of `c` follows the one
      before by 48 ms if it was pinged less than three times since added, else by 900 or, settled, 2500. */
  lemma {:induction false} PingsAreSpaced<C>(es: seq<Event<C>>, now: int, sentAt: int, c: C)
    requires Lawful(es + [Check(now, sentAt, Some(c))])
    requires Strong(Run(es).s)
    ensures c in Run(es).s.conns
    ensures var conn, pings := Run(es).s.conns[c], PingsOf(es, c);
            now - Last(pings) >= if |pings| < 3 then 48 else if Settled(conn, now) then 2500 else 900
  {
    var all := es + [Check(now, sentAt, Some(c))];
    assert all[..|all| - 1] == es && all[|all| - 1] == Check(now, sentAt, Some(c));
    var s := Run(es).s;
    FoundIsLive(s, now, Some(c));
    PingsAreNoted(es, c);
    RoundsAlwaysOk(es);
    LeastRecentFirst(s, now, c);
    WhoCanBePinged(s, c, now);
  }

  /** In every run, two pings of the channel are at least 43 ms apart, and 475 once the selected connection
      is writable and receiving and everybody was pinged three times since added. */
  lemma {:induction false} ChannelPaces<C>(es: seq<Event<C>>, now: int, sentAt: int, c: C)
    requires Lawful(es + [Check(now, sentAt, Some(c))])
    ensures now - Last(AllPings(es)) >= 43
    ensures Strong(Run(es).s) && (forall d :: d in Run(es).s.conns ==> |PingsOf(es, d)| >= 3) ==>
              now - Last(AllPings(es)) >= 475
  {
    var all := es + [Check(now, sentAt, Some(c))];
    assert all[..|all| - 1] == es && all[|all| - 1] == Check(now, sentAt, Some(c));
    LastPingIsNoted(es);
    TwoIntervals(Run(es).s);
    forall d | d in Run(es).s.conns ensures |PingsOf(es, d)| == Run(es).s.conns[d].numPingsSent {
      PingsAreNoted(es, d);
    }
  }

  /** A ping is remembered until it is answered: a connection is settled as long as no unanswered ping,
      the new one included, is older than twice the round-trip time. */
  lemma UnansweredPingUnsettles(c: Conn, sentAt: int, later: int)
    ensures Settled(c.Ping(sentAt), later) <==>
              c.rttSamples > 4 && later - (if c.unanswered == [] then sentAt else c.unanswered[0]) <= 2 * c.rtt
  {
  }
}
