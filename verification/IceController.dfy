/** The ICE controller's ping bookkeeping and the timer callback of the transport channel. */
module IceController {
  import opened Options
  import opened IceSchedule

  class IceConnection {
    var username: string
    var password: string
    var writable: bool
    var receiving: bool
    var lastPingSent: int
    var numPingsSent: nat
    var rtt: int
    var rttSamples: nat
    var unanswered: seq<int>

    function Value(): Conn
      reads this
    {
      Conn(username, password, writable, receiving, lastPingSent, numPingsSent, rtt, rttSamples, unanswered)
    }

    constructor (username: string, password: string)
      ensures Value() == Conn(username, password, false, false, 0, 0, DEFAULT_RTT, 0, [])
    {
      this.username, this.password, writable, receiving := username, password, false, false;
      lastPingSent, numPingsSent, rtt, rttSamples, unanswered := 0, 0, DEFAULT_RTT, 0, [];
    }

    method Ping(now: int)
      modifies this
      ensures Value() == old(Value()).Ping(now)
    {
      lastPingSent := now;
      unanswered := unanswered + [now];
      numPingsSent := numPingsSent + 1;
    }
  }

  function Elements(s: seq<IceConnection>): set<IceConnection> {
    set c | c in s
  }

  predicate Distinct(s: seq<IceConnection>) {
    forall i, j :: 0 <= i < j < |s| ==> s[i] != s[j]
  }

  /** A pointer that may be null. */
  function Choice(conn: IceConnection?): Option<IceConnection> {
    if conn == null then None else Some(conn as IceConnection)
  }

  class IceController {
    var selected: IceConnection?
    var connections: seq<IceConnection>
    var unpinged: set<IceConnection>
    var pinged: set<IceConnection>

    ghost predicate Valid()
      reads `connections, `unpinged, `pinged
    {
      Distinct(connections) && unpinged !! pinged && unpinged + pinged == Elements(connections)
    }

    ghost predicate Safe()
      reads `connections, `unpinged, `pinged, `selected
    {
      Valid() && (selected != null ==> selected in connections)
    }

    ghost function Value(): Sched<IceConnection>
      reads this, connections
    {
      Sched(map c | c in connections :: c.Value(), unpinged, pinged, Choice(selected))
    }

    constructor ()
      ensures Valid() && Value() == Sched(map[], {}, {}, None)
    {
      selected, connections, unpinged, pinged := null, [], {}, {};
    }

    method AddConnection(conn: IceConnection)
      requires Valid() && conn !in connections
      modifies `connections, `unpinged
      ensures Valid() && Value() == Added(old(Value()), conn, conn.Value())
    {
      connections := connections + [conn];
      unpinged := unpinged + {conn};
      assert Value().conns == old(Value()).conns[conn := conn.Value()];
    }

    method OnConnectionDestroyed(conn: IceConnection)
      requires Valid()
      modifies `connections, `unpinged, `pinged
      ensures Valid() && Value() == Destroyed(old(Value()), conn)
    {
      pinged := pinged - {conn};
      unpinged := unpinged - {conn};
      Erase(conn);
      assert Value().conns == old(Value()).conns - {conn};
    }

    /** Takes `conn` off the list. */
    method Erase(conn: IceConnection)
      requires Distinct(connections)
      modifies `connections
      ensures Distinct(connections) && Elements(connections) == Elements(old(connections)) - {conn}
    {
      var iter := 0;
      while iter < |connections| && connections[iter] != conn
        invariant iter <= |connections| && conn !in connections[..iter]
      {
        iter := iter + 1;
      }
      DropOne(connections, conn, iter);
      if iter < |connections| {
        connections := connections[..iter] + connections[iter + 1..];
      }
    }

    static lemma DropOne(s: seq<IceConnection>, conn: IceConnection, i: nat)
      requires Distinct(s) && i <= |s| && conn !in s[..i] && (i < |s| ==> s[i] == conn)
      ensures var left := if i < |s| then s[..i] + s[i + 1..] else s;
              Distinct(left) && Elements(left) == Elements(s) - {conn}
    {
      var left := if i < |s| then s[..i] + s[i + 1..] else s;
      forall c ensures c in left <==> c in s && c != conn {
        if c in s && c != conn {
          var j :| 0 <= j < |s| && s[j] == c;
          assert if j < i then left[j] == c else left[j - 1] == c;
        }
      }
    }

    method MarkConnectionPinged(conn: IceConnection?)
      requires Valid() && (conn != null ==> conn in connections)
      modifies `unpinged, `pinged
      ensures Valid() && Value() == if conn == null then old(Value()) else Marked(old(Value()), conn)
    {
      if conn != null && conn !in pinged {
        pinged := pinged + {conn};
        unpinged := unpinged - {conn};
      }
    }

    function IsWeak(): bool
      reads `selected, selected
    {
      selected == null || selected.Value().Weak()
    }

    lemma CanPingIs(c: IceConnection, now: int)
      requires Safe() && c in connections
      ensures Weak(Value()) == IsWeak() && CanPing(Value(), c, now) == Pingable(c.Value(), IsWeak(), now)
      ensures Value().conns[c].lastPingSent == c.lastPingSent
    {
    }

    /** Whether some unpinged connection can be pinged. */
    method HasPingable(now: int) returns (found: bool)
      requires Safe()
      ensures found <==> !NoneToPing(Value(), now)
    {
      var rest := unpinged;
      while rest != {}
        invariant rest <= unpinged && forall c :: c in unpinged - rest ==> !CanPing(Value(), c, now)
        decreases |rest|
      {
        var c :| c in rest;
        CanPingIs(c, now);
        if Pingable(c.Value(), IsWeak(), now) {
          return true;
        }
        rest := rest - {c};
      }
      return false;
    }

    /** One of the longest unpinged connections of the round. */
    method MostPingable(now: int) returns (found: IceConnection?)
      requires Safe()
      ensures OldestIfAny(Value(), now, Choice(found)) && (found != null ==> found in connections)
    {
      found := null;
      var rest := unpinged;
      while rest != {}
        invariant rest <= unpinged
        invariant found == null ==> forall c :: c in unpinged - rest ==> !CanPing(Value(), c, now)
        invariant found != null ==> found in unpinged && CanPing(Value(), found, now)
        invariant found != null ==> forall c :: c in unpinged - rest && CanPing(Value(), c, now) ==>
                    found.lastPingSent <= c.lastPingSent
        decreases |rest|
      {
        var c :| c in rest;
        rest := rest - {c};
        CanPingIs(c, now);
        if Pingable(c.Value(), IsWeak(), now) && MorePingable(c, found) {
          found := c;
        }
      }
      if found != null {
        forall c | c in unpinged && CanPing(Value(), c, now)
          ensures Value().conns[found].lastPingSent <= Value().conns[c].lastPingSent
        {
          assert c in unpinged - rest;
        }
      }
    }

    static function MorePingable(conn1: IceConnection, conn2: IceConnection?): bool
      reads conn1, conn2
    {
      conn2 == null || conn1.lastPingSent < conn2.lastPingSent
    }

    method FindNextPingableConnection(now: int) returns (conn: IceConnection?)
      requires Safe()
      modifies `unpinged, `pinged
      ensures Safe() && Value() == Searched(old(Value()), now)
      ensures conn != null ==> conn in connections
      ensures Finds(old(Value()), now, Choice(conn))
    {
      if selected != null && selected.writable && PastInterval(selected.Value(), IsWeak(), now) {
        return selected;
      }
      StartRoundIfDone(now);
      conn := MostPingable(now);
    }

    /** Refills the unpinged set if nothing in it can be pinged. */
    method StartRoundIfDone(now: int)
      requires Safe() && !SelectedDue(Value(), now)
      modifies `unpinged, `pinged
      ensures Safe() && Value() == Searched(old(Value()), now)
    {
      var hasPingable := HasPingable(now);
      if !hasPingable {
        unpinged := unpinged + pinged;
        pinged := {};
      }
    }

    method NeedsMorePings() returns (needed: bool)
      ensures needed <==> exists c :: c in connections && c.numPingsSent < MIN_PINGS_AT_WEAK_PING_INTERVAL
    {
      needed := false;
      var i := 0;
      while i < |connections|
        invariant i <= |connections| && !needed
        invariant forall j :: 0 <= j < i ==> connections[j].numPingsSent >= MIN_PINGS_AT_WEAK_PING_INTERVAL
      {
        if connections[i].numPingsSent < MIN_PINGS_AT_WEAK_PING_INTERVAL {
          needed := true;
          break;
        }
        i := i + 1;
      }
    }

    method SelectConnectionToPing(lastPingSentMs: int, now: int) returns (conn: IceConnection?, pingInterval: int)
      requires Safe()
      modifies `unpinged, `pinged
      ensures Safe()
      ensures pingInterval == PingInterval(old(Value()))
      ensures conn != null ==> conn in connections
      ensures if now >= lastPingSentMs + pingInterval
              then Value() == Searched(old(Value()), now) &&
                   Finds(old(Value()), now, Choice(conn))
              else Value() == old(Value()) && conn == null
    {
      var needPingMoreAtWeak := NeedsMorePings();
      assert needPingMoreAtWeak <==>
        exists c :: c in Value().conns && Value().conns[c].numPingsSent < MIN_PINGS_AT_WEAK_PING_INTERVAL by {
        assert forall c :: c in connections ==> Value().conns[c].numPingsSent == c.numPingsSent;
      }
      pingInterval := if IsWeak() || needPingMoreAtWeak then WEAK_PING_INTERVAL else STRONG_PING_INTERVAL;
      conn := null;
      if now >= lastPingSentMs + pingInterval {
        conn := FindNextPingableConnection(now);
      }
    }
  }

  /** The part of the channel that drives the controller. */
  class IceTransportChannel {
    const controller: IceController
    var lastPingSentMs: int
    var curPingInterval: int

    constructor (controller: IceController)
      ensures this.controller == controller && lastPingSentMs == 0 && curPingInterval == WEAK_PING_INTERVAL
    {
      this.controller := controller;
      lastPingSentMs, curPingInterval := 0, WEAK_PING_INTERVAL;
    }

    /** The timer callback; the clock is read once for the search and once for the ping.  States of
        connections are refreshed before it and the timer is restarted after it, both not modelled. */
    method OnCheckAndPing(now: int, sentAt: int) returns (conn: IceConnection?)
      requires controller.Safe()
      modifies this, controller`unpinged, controller`pinged, controller.connections
      ensures controller.Safe() && curPingInterval == PingInterval(old(controller.Value()))
      ensures conn != null ==> old(conn in controller.connections)
      ensures var s := old(controller.Value());
              if TimeToSearch(s, old(lastPingSentMs), now)
              then Finds(s, now, Choice(conn)) &&
                   controller.Value() == (if conn == null then Searched(s, now) else Pinged(Searched(s, now), conn, sentAt))
              else conn == null && controller.Value() == s
      ensures lastPingSentMs == if conn == null then old(lastPingSentMs) else sentAt
    {
      var interval;
      ghost var s := controller.Value();
      conn, interval := controller.SelectConnectionToPing(lastPingSentMs - PING_INTERVAL_DIFF, now);
      assert conn != null ==> controller.Value() == Searched(s, now);
      if conn != null {
        PingAndMark(conn, sentAt);
      }
      if curPingInterval != interval {
        curPingInterval := interval;
      }
    }

    method PingAndMark(conn: IceConnection, sentAt: int)
      requires controller.Safe() && conn in controller.connections
      modifies `lastPingSentMs, conn, controller`unpinged, controller`pinged
      ensures controller.Safe() && controller.Value() == Pinged(old(controller.Value()), conn, sentAt)
      ensures lastPingSentMs == sentAt
    {
      PingConnection(conn, sentAt);
      controller.MarkConnectionPinged(conn);
    }

    method PingConnection(conn: IceConnection, sentAt: int)
      requires controller.Valid() && conn in controller.connections
      modifies `lastPingSentMs, conn
      ensures lastPingSentMs == sentAt && controller.Valid()
      ensures var s := old(controller.Value());
              controller.Value() == s.(conns := s.conns[conn := s.conns[conn].Ping(sentAt)])
    {
      lastPingSentMs := sentAt;
      conn.Ping(sentAt);
      assert controller.Value().conns == old(controller.Value()).conns[conn := conn.Value()];
    }
  }
}
