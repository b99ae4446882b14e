/** One connection of the gateway: what client_handler inserts and logs for everything its peer can send. */
module ClientHandler {
  import opened Records
  import opened SharedBuffer

  // A tcp_receive: a whole field, the peer closing the connection, or a socket error.
  datatype Receive<T> = Got(value: T) | Closed | Failed

  // One iteration: the clock before it, the three receives, the clock after them.
  datatype Round = Round(start: int, id: Receive<SensorId>, value: Receive<real>, ts: Receive<int>, now: int)

  datatype LogEvent =
    | Opened(id: SensorId)
    | DataInserted(id: SensorId)
    | Terminated(id: SensorId)
    | TimedOut(id: SensorId)
    | PeerError

  datatype TcpResult = NoError | ConnectionClosed | SocketError

  function ResultOf<T>(r: Receive<T>): TcpResult {
    match r
    case Got(_) => NoError
    case Closed => ConnectionClosed
    case Failed => SocketError
  }

  // A peer that has nothing more to send closes the connection.
  function RoundAt(rounds: seq<Round>, k: nat): Round {
    if k < |rounds| then rounds[k] else Round(0, Closed, Closed, Closed, 0)
  }

  // ---- The reference ----

  predicate Complete(r: Round) {
    r.id.Got? && r.value.Got? && r.ts.Got?
  }

  predicate Accepted(r: Round, timeout: int) {
    Complete(r) && r.now - r.start <= timeout
  }

  function RecordOf(r: Round): Record
    requires Complete(r)
  {
    Record(r.id.value, r.value.value, r.ts.value)
  }

  // The records of the rounds before the first that fails or is too slow.
  function Sent(rounds: seq<Round>, timeout: int): seq<Record> {
    if rounds == [] || !Accepted(rounds[0], timeout) then []
    else [RecordOf(rounds[0])] + Sent(rounds[1..], timeout)
  }

  // The id of the first reading; 0 if not even that arrived.
  function ConnectionId(rounds: seq<Round>): SensorId {
    if RoundAt(rounds, 0).id.Got? then RoundAt(rounds, 0).id.value else 0
  }

  // How the connection ends, by the first round that is not accepted.
  function Ending(r: Round, id: SensorId): LogEvent {
    if r.id == Closed || (r.id.Got? && (r.value == Closed || (r.value.Got? && r.ts == Closed))) then Terminated(id)
    else if Complete(r) then TimedOut(id)
    else PeerError
  }

  // The log before the ending: the opening, if any, and n inserts.
  function LogUpTo(named: bool, id: SensorId, n: nat): seq<LogEvent> {
    if n == 0 then (if named then [Opened(id)] else [])
    else LogUpTo(named, id, n - 1) + [DataInserted(id)]
  }

  function ExpectedLog(rounds: seq<Round>, timeout: int): seq<LogEvent> {
    var id := ConnectionId(rounds);
    var n := |Sent(rounds, timeout)|;
    LogUpTo(RoundAt(rounds, 0).id.Got?, id, n) + [Ending(RoundAt(rounds, n), id)]
  }

  /** Sent is cut exactly at the first round that fails or is too slow. */
  lemma {:induction false} SentIsLongestPrefix(rounds: seq<Round>, timeout: int)
    ensures var n := |Sent(rounds, timeout)|;
      && n <= |rounds|
      && (forall k :: 0 <= k < n ==> Accepted(rounds[k], timeout) && Sent(rounds, timeout)[k] == RecordOf(rounds[k]))
      && (n < |rounds| ==> !Accepted(rounds[n], timeout))
  {
    if rounds != [] && Accepted(rounds[0], timeout) {
      SentIsLongestPrefix(rounds[1..], timeout);
      forall k | 0 <= k < |Sent(rounds, timeout)|
        ensures Accepted(rounds[k], timeout) && Sent(rounds, timeout)[k] == RecordOf(rounds[k])
      {
        if k > 0 {
          assert rounds[k] == rounds[1..][k - 1];
        }
      }
    }
  }

  /** In the clock's terms: every record sent is the three fields of a round that took no longer than the
      timeout, and where all three fields of the next round arrive, that round took longer. */
  lemma SentInTime(rounds: seq<Round>, timeout: int)
    ensures var sent := Sent(rounds, timeout);
      var n := |sent|;
      && n <= |rounds|
      && (forall k :: 0 <= k < n ==>
            && rounds[k].id == Got(sent[k].id) && rounds[k].value == Got(sent[k].value)
            && rounds[k].ts == Got(sent[k].ts)
            && rounds[k].now - rounds[k].start <= timeout)
      && (n < |rounds| && rounds[n].id.Got? && rounds[n].value.Got? && rounds[n].ts.Got? ==>
            rounds[n].now - rounds[n].start > timeout)
  {
    SentIsLongestPrefix(rounds, timeout);
  }

  // The first receive of a round that does not deliver its field; Got where all three do.
  function FirstFailure(r: Round): Receive<int> {
    if !r.id.Got? then (if r.id.Closed? then Closed else Failed)
    else if !r.value.Got? then (if r.value.Closed? then Closed else Failed)
    else r.ts
  }

  /** The ending is the one the next round calls for: terminated if the client is out of rounds or its first
      missing field is a closed connection, an error if that is a socket error, timed out if no field is
      missing; and every entry that names a sensor names that of the first reading, or 0 if not even its id
      arrived. */
  lemma EndingIsDeserved(rounds: seq<Round>, timeout: int)
    ensures var log := ExpectedLog(rounds, timeout);
      var n := |Sent(rounds, timeout)|;
      var last := log[|log| - 1];
      && n <= |rounds|
      && (last.Terminated? <==> n == |rounds| || FirstFailure(rounds[n]).Closed?)
      && (last.PeerError? <==> n < |rounds| && FirstFailure(rounds[n]).Failed?)
      && (last.TimedOut? <==> n < |rounds| && FirstFailure(rounds[n]).Got?)
      && (forall k :: 0 <= k < |log| && !log[k].PeerError? ==>
            log[k].id == if rounds != [] && rounds[0].id.Got? then rounds[0].id.value else 0)
  {
    SentIsLongestPrefix(rounds, timeout);
    LogShape(rounds, timeout);
  }

  // What the code after the loop logs.
  function Outcome(result: TcpResult, hasTimeout: bool, id: SensorId): LogEvent {
    if result == ConnectionClosed then Terminated(id) else if hasTimeout then TimedOut(id) else PeerError
  }

  // The rest of an iteration whose id has been received: temperature, timestamp and clock.
  method ReceiveReading(round: Round, timeout: int) returns (result: TcpResult, hasTimeout: bool)
    requires round.id.Got?
    ensures Accepted(round, timeout) <==> result == NoError && !hasTimeout
    ensures forall id :: !Accepted(round, timeout) ==> Outcome(result, hasTimeout, id) == Ending(round, id)
  {
    hasTimeout := false;
    result := ResultOf(round.value);
    if result != NoError {
      return;
    }
    result := ResultOf(round.ts);
    if result != NoError {
      return;
    }
    if round.now - round.start > timeout {
      hasTimeout := true;
    }
  }

  // The locals of client_handler that survive an iteration, with the log so far.
  datatype Connection = Connection(loggedAlready: bool, id: SensorId, log: seq<LogEvent>)

  function Opening(conn: Connection, round: Round): Connection {
    if conn.loggedAlready || !round.id.Got? then conn
    else Connection(true, round.id.value, conn.log + [Opened(round.id.value)])
  }

  // One iteration of the do-while loop.
  method ServeRound(round: Round, timeout: int, buffer: Buffer, conn: Connection)
    returns (next: Connection, result: TcpResult, hasTimeout: bool)
    requires buffer.Valid()
    modifies buffer, buffer.live
    ensures buffer.Valid() && fresh(buffer.live - old(buffer.live))
    ensures Accepted(round, timeout) <==> result == NoError && !hasTimeout
    ensures Accepted(round, timeout) ==>
      && buffer.contents == old(buffer.contents) + [RecordOf(round)]
      && next == Opening(conn, round).(log := Opening(conn, round).log + [DataInserted(next.id)])
    ensures !Accepted(round, timeout) ==>
      && buffer.contents == old(buffer.contents)
      && next == Opening(conn, round)
      && Outcome(result, hasTimeout, next.id) == Ending(round, next.id)
  {
    next, hasTimeout := conn, false;
    result := ResultOf(round.id);
    if result != NoError {
      return;
    }
    if !next.loggedAlready {
      next := Connection(true, round.id.value, next.log + [Opened(round.id.value)]);
    }
    result, hasTimeout := ReceiveReading(round, timeout);
    if result == NoError && !hasTimeout {
      buffer.Insert(Record(round.id.value, round.value.value, round.ts.value));
      next := next.(log := next.log + [DataInserted(next.id)]);
    }
  }

  // What the remaining rounds insert and leave in the log, one round at a time.
  function Served(conn: Connection, rounds: seq<Round>, timeout: int): (seq<Record>, seq<LogEvent>)
    decreases |rounds|
  {
    var round := RoundAt(rounds, 0);
    var c := Opening(conn, round);
    if Accepted(round, timeout) then
      var (recs, log) := Served(c.(log := c.log + [DataInserted(c.id)]), rounds[1..], timeout);
      ([RecordOf(round)] + recs, log)
    else ([], c.log + [Ending(round, c.id)])
  }

  lemma {:induction false} ServedAsReference(conn: Connection, rounds: seq<Round>, timeout: int, k: nat)
    requires conn.loggedAlready && conn.log == LogUpTo(true, conn.id, k)
    ensures Served(conn, rounds, timeout).0 == Sent(rounds, timeout)
    ensures var n := |Sent(rounds, timeout)|;
      Served(conn, rounds, timeout).1 == LogUpTo(true, conn.id, k + n) + [Ending(RoundAt(rounds, n), conn.id)]
    decreases |rounds|
  {
    if Accepted(RoundAt(rounds, 0), timeout) {
      var n := |Sent(rounds[1..], timeout)|;
      ServedAsReference(conn.(log := conn.log + [DataInserted(conn.id)]), rounds[1..], timeout, k + 1);
      assert RoundAt(rounds[1..], n) == RoundAt(rounds, n + 1);
      assert k + 1 + n == k + (n + 1);
    }
  }

  lemma ServedFromScratch(rounds: seq<Round>, timeout: int)
    ensures Served(Connection(false, 0, []), rounds, timeout) == (Sent(rounds, timeout), ExpectedLog(rounds, timeout))
  {
    var round := RoundAt(rounds, 0);
    var id := ConnectionId(rounds);
    assert LogUpTo(true, id, 0) == [Opened(id)] == [] + [Opened(id)];
    if Accepted(round, timeout) {
      var n := |Sent(rounds[1..], timeout)|;
      assert LogUpTo(true, id, 1) == [Opened(id)] + [DataInserted(id)];
      ServedAsReference(Connection(true, id, LogUpTo(true, id, 1)), rounds[1..], timeout, 1);
      assert RoundAt(rounds[1..], n) == RoundAt(rounds, n + 1);
    } else {
      assert Sent(rounds, timeout) == [];
      assert ExpectedLog(rounds, timeout) == LogUpTo(round.id.Got?, id, 0) + [Ending(round, id)];
    }
  }

  // One more round of Served, seen from the buffer.
  lemma ServedRound(conn: Connection, rounds: seq<Round>, n: nat, timeout: int, before: seq<Record>)
    requires n <= |rounds|
    ensures var round := RoundAt(rounds, n);
      var c := Opening(conn, round);
      var now := Served(conn, rounds[n..], timeout);
      if Accepted(round, timeout) then
        var later := Served(c.(log := c.log + [DataInserted(c.id)]), rounds[n + 1..], timeout);
        n < |rounds| && now.1 == later.1 && before + now.0 == (before + [RecordOf(round)]) + later.0
      else now == ([], c.log + [Ending(round, c.id)]) && before + now.0 == before
  {
    assert RoundAt(rounds[n..], 0) == RoundAt(rounds, n);
    if n < |rounds| {
      assert rounds[n..][1..] == rounds[n + 1..];
    }
  }

  method Handle(rounds: seq<Round>, timeout: int, buffer: Buffer) returns (log: seq<LogEvent>)
    requires buffer.Valid()
    modifies buffer, buffer.live
    ensures buffer.Valid()
    ensures buffer.contents == old(buffer.contents) + Sent(rounds, timeout)
    ensures log == ExpectedLog(rounds, timeout)
  {
    var conn, n := Connection(false, 0, []), 0;
    var result, hasTimeout := NoError, false;
    ghost var all, events := buffer.contents + Sent(rounds, timeout), ExpectedLog(rounds, timeout);
    ServedFromScratch(rounds, timeout);
    assert rounds[0..] == rounds;
    while true
      invariant n <= |rounds|
      invariant buffer.Valid() && fresh(buffer.live - old(buffer.live))
      invariant all == buffer.contents + Served(conn, rounds[n..], timeout).0
      invariant events == Served(conn, rounds[n..], timeout).1
      decreases |rounds| - n
    {
      ServedRound(conn, rounds, n, timeout, buffer.contents);
      conn, result, hasTimeout := ServeRound(RoundAt(rounds, n), timeout, buffer, conn);
      if result != NoError || hasTimeout {
        break;
      }
      n := n + 1;
    }
    log := conn.log;
    if result == ConnectionClosed {
      log := log + [Terminated(conn.id)];
    } else if hasTimeout {
      log := log + [TimedOut(conn.id)];
    } else {
      log := log + [PeerError];
    }
  }

  lemma {:induction false} LogUpToShape(named: bool, id: SensorId, n: nat)
    ensures var log := LogUpTo(named, id, n);
      var first := if named then 1 else 0;
      && |log| == first + n
      && (forall k :: 0 <= k < |log| ==> log[k] == if k < first then Opened(id) else DataInserted(id))
  {
    if n > 0 {
      LogUpToShape(named, id, n - 1);
    }
  }

  predicate IsEnding(e: LogEvent) {
    e.Terminated? || e.TimedOut? || e.PeerError?
  }

  /** In every log the opening comes first and at most once, one insert is logged per record sent, and
      exactly one ending comes last; all with the id of the first reading. */
  lemma LogShape(rounds: seq<Round>, timeout: int)
    ensures var log := ExpectedLog(rounds, timeout);
      var first := if RoundAt(rounds, 0).id.Got? then 1 else 0;
      && |log| == first + |Sent(rounds, timeout)| + 1
      && (forall k :: 0 <= k < |log| ==>
            && (log[k].Opened? <==> k < first)
            && (log[k].DataInserted? <==> first <= k < |log| - 1)
            && (IsEnding(log[k]) <==> k == |log| - 1)
            && (!log[k].PeerError? ==> log[k].id == ConnectionId(rounds)))
      && (Sent(rounds, timeout) != [] ==> first == 1)
  {
    LogUpToShape(RoundAt(rounds, 0).id.Got?, ConnectionId(rounds), |Sent(rounds, timeout)|);
  }
}
