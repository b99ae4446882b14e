/**
 Where the gateway's promise ends: the exact sets of clients from which no execution loses a reading.
 Executions are built for any number of connections sending anything.
 */
module GatewayLimits {
  import opened Records
  import opened Gateway
  import opened GatewayMemory
  import opened GatewayCounters
  import opened GatewayReaders
  import opened GatewaySources
  import opened GatewayRuns
  import opened GatewayProgress
  import ClientHandler

  // ---- Executions that exist ----

  const UNREAD := Reader(CheckHead, None, [])

  // The first k clients are accepted and none of their connections has inserted anything.
  function Joined(maxConn: nat, timeout: int, clients: seq<Client>, k: nat): State
    requires k <= |clients|
  {
    Start(maxConn, timeout).(handlers := seq(k, i requires 0 <= i < k => Newcomer(clients, timeout, i)), conns := k)
  }

  function Newcomer(clients: seq<Client>, timeout: int, i: nat): Handler
    requires i < |clients|
  {
    HandlerThread(Producer(SentBy(clients, timeout, i), 0, None), false)
  }

  lemma {:induction false} Connects(maxConn: nat, timeout: int, clients: seq<Client>, k: nat) returns (s: State)
    requires k <= |clients| == maxConn
    ensures Reachable(maxConn, timeout, clients[..k], s) && s == Joined(maxConn, timeout, clients, k)
  {
    if k == 0 {
      s := Begin(maxConn, timeout);
    } else {
      var u := Connects(maxConn, timeout, clients, k - 1);
      s := Step(maxConn, timeout, clients[..k - 1], u, Loop);
      s := Step(maxConn, timeout, clients[..k - 1], s, Accept(clients[k - 1]));
      assert clients[..k - 1] + [clients[k - 1]] == clients[..k];
      s := Step(maxConn, timeout, clients[..k], s, Count);
      assert s == u.(conns := k, pc := Spawning(SentBy(clients, timeout, k - 1)));
      s := Step(maxConn, timeout, clients[..k], s, Spawn);
      assert s == u.(conns := k, handlers := u.handlers + [Newcomer(clients, timeout, k - 1)]);
      AcceptedNext(maxConn, timeout, clients, k - 1);
    }
  }

  lemma AcceptedNext(maxConn: nat, timeout: int, clients: seq<Client>, k: nat)
    requires k < |clients|
    ensures var s := Joined(maxConn, timeout, clients, k);
      Joined(maxConn, timeout, clients, k + 1) ==
        s.(conns := k + 1, handlers := s.handlers + [Newcomer(clients, timeout, k)])
  {
    assert Joined(maxConn, timeout, clients, k + 1).handlers ==
      Joined(maxConn, timeout, clients, k).handlers + [Newcomer(clients, timeout, k)];
  }

  // Connection i may insert its next record.
  predicate Ready(s: State, i: nat) {
    && i < |s.handlers| && s.lock.Free?
    && s.handlers[i].prod.pending == None && s.handlers[i].prod.sent < |s.handlers[i].prod.script|
  }

  function WithProd(hs: seq<Handler>, i: nat, p: Producer): seq<Handler>
    requires i < |hs|
  {
    hs[i := hs[i].(prod := p)]
  }

  // One more event that publishes nothing.
  lemma Quietly(maxConn: nat, timeout: int, clients: seq<Client>, s: State, e: Event) returns (t: State)
    requires Reachable(maxConn, timeout, clients, s) && Enabled(s, e) && !Publishes(s, e) && !e.Accept?
    ensures t == Apply(s, e) && Reachable(maxConn, timeout, clients, t)
    ensures InBounds(s.cells, s.order) && InBounds(t.cells, t.order)
    ensures Log(t.cells, t.order) == Log(s.cells, s.order)
  {
    ReachableInvariant(maxConn, timeout, clients, s);
    QuietStep(s, e);
    t := Step(maxConn, timeout, clients, s, e);
  }

  lemma WithProdTwice(hs: seq<Handler>, i: nat, p: Producer, q: Producer)
    requires i < |hs|
    ensures WithProd(WithProd(hs, i, p), i, q) == WithProd(hs, i, q)
  {
  }

  lemma EntersInsert(maxConn: nat, timeout: int, clients: seq<Client>, s: State, i: nat) returns (t: State)
    requires Reachable(maxConn, timeout, clients, s) && Ready(s, i)
    ensures Reachable(maxConn, timeout, clients, t)
    ensures t.handlers == WithProd(s.handlers, i, s.handlers[i].prod.(pending := Some(|s.cells|)))
    ensures t.lock == Held(Handler(i), |s.cells|, Entered)
    ensures InBounds(s.cells, s.order) && InBounds(t.cells, t.order)
    ensures Log(t.cells, t.order) == Log(s.cells, s.order)
  {
    t := Quietly(maxConn, timeout, clients, s, Fill(Handler(i)));
    t := Quietly(maxConn, timeout, clients, t, Enter(Handler(i)));
  }

  // The insert's publishing store, whichever it is.
  lemma Publishing(maxConn: nat, timeout: int, clients: seq<Client>, s: State) returns (t: State)
    requires Reachable(maxConn, timeout, clients, s) && s.lock.Held? && s.lock.stage.Entered? && s.lock.who.Handler?
    ensures Reachable(maxConn, timeout, clients, t) && t.handlers == s.handlers
    ensures t.lock.Held? && t.lock.who == s.lock.who && (t.lock.stage.HeadSet? || t.lock.stage.Linked?)
    ensures InBounds(s.cells, s.order) && InBounds(t.cells, t.order) && Exists(s, s.lock.who)
    ensures var p := Prod(s, s.lock.who);
      p.sent < |p.script| && Log(t.cells, t.order) == Log(s.cells, s.order) + [p.script[p.sent]]
  {
    ReachableInvariant(maxConn, timeout, clients, s);
    InsertNeverFaults(s, true);
    PublishAppends(s, Advance(true));
    t := Step(maxConn, timeout, clients, s, Advance(true));
  }

  lemma LeavesInsert(maxConn: nat, timeout: int, clients: seq<Client>, s: State) returns (t: State)
    requires Reachable(maxConn, timeout, clients, s) && s.lock.Held? && (s.lock.stage.HeadSet? || s.lock.stage.Linked?)
    requires s.lock.who.Handler? && Exists(s, s.lock.who)
    ensures Reachable(maxConn, timeout, clients, t) && t.lock.Free?
    ensures var p := Prod(s, s.lock.who);
      t.handlers == WithProd(s.handlers, s.lock.who.i, p.(pending := None, sent := p.sent + 1))
    ensures InBounds(s.cells, s.order) && InBounds(t.cells, t.order)
    ensures Log(t.cells, t.order) == Log(s.cells, s.order)
  {
    NextStore(maxConn, timeout, clients, s);
    var u := Quietly(maxConn, timeout, clients, s, Advance(true));
    assert u.lock == Held(s.lock.who, s.lock.node, Complete) && u.handlers == s.handlers;
    NextStore(maxConn, timeout, clients, u);
    t := Quietly(maxConn, timeout, clients, u, Advance(true));
  }

  lemma NextStore(maxConn: nat, timeout: int, clients: seq<Client>, s: State)
    requires Reachable(maxConn, timeout, clients, s) && s.lock.Held?
    ensures Enabled(s, Advance(true))
  {
    ReachableInvariant(maxConn, timeout, clients, s);
    InsertNeverFaults(s, true);
  }

  lemma Inserts(maxConn: nat, timeout: int, clients: seq<Client>, s: State, i: nat) returns (t: State)
    requires Reachable(maxConn, timeout, clients, s) && Ready(s, i)
    ensures Reachable(maxConn, timeout, clients, t) && t.lock.Free?
    ensures InBounds(s.cells, s.order) && InBounds(t.cells, t.order)
    ensures WentOn(s, t, i, s.handlers[i].prod.sent + 1)
  {
    var p := s.handlers[i].prod;
    var u := EntersInsert(maxConn, timeout, clients, s, i);
    assert Prod(u, Handler(i)) == p.(pending := Some(|s.cells|));
    u := Publishing(maxConn, timeout, clients, u);
    t := LeavesInsert(maxConn, timeout, clients, u);
    assert p.(pending := None, sent := p.sent + 1) == p.(sent := p.sent + 1);
    assert p.script[p.sent..p.sent + 1] == [p.script[p.sent]];
  }

  // Connection i alone goes on to its record m.
  lemma {:induction false} InsertsUpTo(maxConn: nat, timeout: int, clients: seq<Client>, s: State, i: nat, m: nat)
    returns (t: State)
    requires Reachable(maxConn, timeout, clients, s) && s.lock.Free? && i < |s.handlers|
    requires s.handlers[i].prod.pending == None && s.handlers[i].prod.sent <= m <= |s.handlers[i].prod.script|
    ensures Reachable(maxConn, timeout, clients, t) && t.lock.Free?
    ensures InBounds(s.cells, s.order) && InBounds(t.cells, t.order)
    ensures WentOn(s, t, i, m)
    decreases m - s.handlers[i].prod.sent
  {
    ReachableInvariant(maxConn, timeout, clients, s);
    if s.handlers[i].prod.sent == m {
      t := s;
    } else {
      var u := Inserts(maxConn, timeout, clients, s, i);
      t := InsertsUpTo(maxConn, timeout, clients, u, i, m);
      GoesOnFurther(s, u, t, i, m);
    }
  }

  // t is s after connection i has inserted its records up to m.
  ghost predicate WentOn(s: State, t: State, i: nat, m: nat)
    requires InBounds(s.cells, s.order) && InBounds(t.cells, t.order)
  {
    && i < |s.handlers| && s.handlers[i].prod.sent <= m <= |s.handlers[i].prod.script|
    && t.handlers == WithProd(s.handlers, i, s.handlers[i].prod.(sent := m))
    && Log(t.cells, t.order) == Log(s.cells, s.order) + s.handlers[i].prod.script[s.handlers[i].prod.sent..m]
  }

  lemma GoesOnFurther(s: State, u: State, t: State, i: nat, m: nat)
    requires InBounds(s.cells, s.order) && InBounds(u.cells, u.order) && InBounds(t.cells, t.order)
    requires i < |s.handlers| && s.handlers[i].prod.sent < m
    requires WentOn(s, u, i, s.handlers[i].prod.sent + 1) && WentOn(u, t, i, m)
    ensures WentOn(s, t, i, m)
  {
    var p := s.handlers[i].prod;
    WithProdTwice(s.handlers, i, p.(sent := p.sent + 1), p.(sent := m));
    FirstAndRest(Log(s.cells, s.order), p.script, p.sent, m);
  }

  lemma FirstAndRest(log: seq<Record>, s: seq<Record>, k: nat, m: nat)
    requires k < m <= |s|
    ensures log + s[k..m] == log + [s[k]] + s[k + 1..m]
  {
    assert s[k..m] == [s[k]] + s[k + 1..m];
  }

  // ---- Which clients can cause a loss ----

  // Record a of client i is a marker, record b of client j is a reading, and nothing makes the reading
  // come first.
  predicate Overtakes(clients: seq<Client>, timeout: int, i: nat, a: nat, j: nat, b: nat) {
    && i < |clients| && a < |SentBy(clients, timeout, i)| && IsMarker(SentBy(clients, timeout, i)[a])
    && j < |clients| && b < |SentBy(clients, timeout, j)| && !IsMarker(SentBy(clients, timeout, j)[b])
    && (i == j ==> a < b)
  }

  // Both readers end with every reading that was sent.
  ghost predicate NothingLost(s: State) {
    InBounds(s.cells, s.order) && s.order != [] && s.db.rows == s.mgr.rows == Data(Body(s))
  }

  // The marker is inserted, and then the reading.
  lemma MarkerFirst(maxConn: nat, timeout: int, clients: seq<Client>, i: nat, a: nat, j: nat, b: nat)
    returns (t: State)
    requires |clients| == maxConn && Overtakes(clients, timeout, i, a, j, b)
    ensures Reachable(maxConn, timeout, clients, t) && |t.handlers| == maxConn
    ensures InBounds(t.cells, t.order)
    ensures var log := Log(t.cells, t.order);
      a < |log| - 1 && IsMarker(log[a]) && !IsMarker(log[|log| - 1])
  {
    var s := MarkerIn(maxConn, timeout, clients, i, a);
    var k := if i == j then a + 1 else 0;
    assert s.handlers[j].prod == Producer(SentBy(clients, timeout, j), k, None);
    t := InsertsUpTo(maxConn, timeout, clients, s, j, b + 1);
    assert |t.handlers| == |s.handlers|;
    MarkerThenReading(SentBy(clients, timeout, i)[..a + 1], SentBy(clients, timeout, j), k, b);
  }

  // Connection i inserts its records up to record a, and no other connection anything.
  lemma MarkerIn(maxConn: nat, timeout: int, clients: seq<Client>, i: nat, a: nat) returns (t: State)
    requires i < |clients| == maxConn && a < |SentBy(clients, timeout, i)|
    ensures Reachable(maxConn, timeout, clients, t) && t.lock.Free? && |t.handlers| == maxConn
    ensures forall j :: 0 <= j < maxConn ==>
      t.handlers[j].prod == Producer(SentBy(clients, timeout, j), if j == i then a + 1 else 0, None)
    ensures InBounds(t.cells, t.order) && Log(t.cells, t.order) == SentBy(clients, timeout, i)[..a + 1]
  {
    var s := Connects(maxConn, timeout, clients, maxConn);
    assert clients[..maxConn] == clients;
    t := InsertsUpTo(maxConn, timeout, clients, s, i, a + 1);
    assert Log(s.cells, s.order) == [];
  }

  lemma MarkerThenReading(first: seq<Record>, script: seq<Record>, k: nat, b: nat)
    requires first != [] && IsMarker(first[|first| - 1]) && k <= b < |script| && !IsMarker(script[b])
    ensures var log := first + script[k..b + 1];
      |first| < |log| && IsMarker(log[|first| - 1]) && !IsMarker(log[|log| - 1])
  {
  }

  // Whatever follows, the reading is lost.
  lemma StaysBehind(maxConn: nat, timeout: int, clients: seq<Client>, t: State, p: nat, q: nat) returns (s: State)
    requires Reachable(maxConn, timeout, clients, t) && |t.handlers| == maxConn
    requires InBounds(t.cells, t.order) && p < q < |t.order|
    requires IsMarker(Log(t.cells, t.order)[p]) && !IsMarker(Log(t.cells, t.order)[q])
    ensures Reachable(maxConn, timeout, clients, s) && Completed(s) && !NothingLost(s)
  {
    s := CanComplete(maxConn, timeout, clients, t);
    GatewayAgreement(maxConn, timeout, clients, s);
    MarkerStaysAhead(Log(t.cells, t.order), Log(s.cells, s.order), p, q);
  }

  lemma MarkerStaysAhead(log: seq<Record>, all: seq<Record>, p: nat, q: nat)
    requires p < q < |log| && log <= all && IsMarker(log[p]) && !IsMarker(log[q])
    requires IsMarker(all[|all| - 1])
    ensures !MarkersTrail(all[..|all| - 1])
  {
    var body := all[..|all| - 1];
    assert all[p] == log[p] && all[q] == log[q] && q != |all| - 1;
    assert IsMarker(body[p]) && !IsMarker(body[q]);
  }

  lemma ReadingOvertaken(maxConn: nat, timeout: int, clients: seq<Client>, i: nat, a: nat, j: nat, b: nat)
    returns (s: State)
    requires |clients| == maxConn && Overtakes(clients, timeout, i, a, j, b)
    ensures Reachable(maxConn, timeout, clients, s) && Completed(s) && !NothingLost(s)
  {
    var t := MarkerFirst(maxConn, timeout, clients, i, a, j, b);
    s := StaysBehind(maxConn, timeout, clients, t, a, |t.order| - 1);
  }

  lemma {:induction false} ByPrefix(log: seq<Record>, authors: seq<Author>, a: Author, k: nat)
    requires |log| == |authors| && k <= |log|
    ensures By(log[..k], authors[..k], a) <= By(log, authors, a)
  {
    if k == |log| {
      assert log[..k] == log && authors[..k] == authors;
    } else {
      var n := |log| - 1;
      ByPrefix(log[..n], authors[..n], a, k);
      assert log[..n][..k] == log[..k] && authors[..n][..k] == authors[..k];
    }
  }

  // The record at position k of the log is the next one of its author's.
  lemma ByPosition(log: seq<Record>, authors: seq<Author>, k: nat)
    requires |log| == |authors| && k < |log|
    ensures var m := |By(log[..k], authors[..k], authors[k])|;
      m < |By(log, authors, authors[k])| && By(log, authors, authors[k])[m] == log[k]
  {
    ByPrefix(log, authors, authors[k], k + 1);
    assert log[..k + 1][..k] == log[..k] && authors[..k + 1][..k] == authors[..k];
  }

  // Two positions of one author keep their order among the author's records.
  lemma ByOrder(log: seq<Record>, authors: seq<Author>, p: nat, q: nat) returns (a: nat, b: nat)
    requires |log| == |authors| && p < q < |log| && authors[p] == authors[q]
    ensures a < b < |By(log, authors, authors[p])|
    ensures By(log, authors, authors[p])[a] == log[p] && By(log, authors, authors[p])[b] == log[q]
  {
    b := |By(log[..q], authors[..q], authors[q])|;
    ByPosition(log, authors, q);
    ByPrefix(log, authors, authors[q], q);
    ByPosition(log[..q], authors[..q], p);
    assert log[..q][..p] == log[..p] && authors[..q][..p] == authors[..p];
    a := |By(log[..p], authors[..p], authors[p])|;
  }

  // A reading behind a marker in the log comes from records of which the one may overtake the other.
  lemma OvertakenInLog(maxConn: nat, timeout: int, clients: seq<Client>, s: State, p: nat, q: nat)
    returns (i: nat, a: nat, j: nat, b: nat)
    requires Reachable(maxConn, timeout, clients, s) && Completed(s)
    requires InBounds(s.cells, s.order) && p < q < |s.order|
    requires IsMarker(Log(s.cells, s.order)[p]) && !IsMarker(Log(s.cells, s.order)[q])
    ensures Overtakes(clients, timeout, i, a, j, b)
  {
    ReachableInvariant(maxConn, timeout, clients, s);
    ScriptsAreSent(clients, s);
    var log, authors := Log(s.cells, s.order), Authors(s.cells, s.order);
    MarkerIsLastAndUnique(maxConn, timeout, clients, s);
    assert authors[p].Handler? && authors[q].Handler?;
    i, j := authors[p].i, authors[q].i;
    ClientIsLogged(maxConn, timeout, clients, s, i);
    ClientIsLogged(maxConn, timeout, clients, s, j);
    if i == j {
      a, b := ByOrder(log, authors, p, q);
    } else {
      a, b := |By(log[..p], authors[..p], authors[p])|, |By(log[..q], authors[..q], authors[q])|;
      ByPosition(log, authors, p);
      ByPosition(log, authors, q);
    }
  }

  /** Given what the clients send, no execution of the gateway loses a reading exactly if only readings of
      the marker's own client, sent before it, accompany a record with the marker's id. */
  lemma NoReadingLostExactly(maxConn: nat, timeout: int, clients: seq<Client>)
    requires |clients| == maxConn
    ensures (forall s :: Reachable(maxConn, timeout, clients, s) && Completed(s) ==> NothingLost(s))
      <==> forall i, a, j, b :: !Overtakes(clients, timeout, i, a, j, b)
  {
    if i, a, j, b :| Overtakes(clients, timeout, i, a, j, b) {
      var s := ReadingOvertaken(maxConn, timeout, clients, i, a, j, b);
    } else {
      forall s | Reachable(maxConn, timeout, clients, s) && Completed(s) ensures NothingLost(s) {
        NothingIsLost(maxConn, timeout, clients, s);
      }
    }
  }

  lemma NothingIsLost(maxConn: nat, timeout: int, clients: seq<Client>, s: State)
    requires Reachable(maxConn, timeout, clients, s) && Completed(s)
    requires forall i, a, j, b :: !Overtakes(clients, timeout, i, a, j, b)
    ensures NothingLost(s)
  {
    GatewayAgreement(maxConn, timeout, clients, s);
    forall p, q | 0 <= p < q < |Body(s)| && IsMarker(Body(s)[p]) ensures IsMarker(Body(s)[q]) {
      NotOvertaken(maxConn, timeout, clients, s, p, q);
    }
  }

  lemma NotOvertaken(maxConn: nat, timeout: int, clients: seq<Client>, s: State, p: nat, q: nat)
    requires Reachable(maxConn, timeout, clients, s) && Completed(s)
    requires forall i, a, j, b :: !Overtakes(clients, timeout, i, a, j, b)
    requires InBounds(s.cells, s.order) && p < q < |s.order| && IsMarker(Log(s.cells, s.order)[p])
    ensures IsMarker(Log(s.cells, s.order)[q])
  {
    if !IsMarker(Log(s.cells, s.order)[q]) {
      var i, a, j, b := OvertakenInLog(maxConn, timeout, clients, s, p, q);
    }
  }

  // ---- The smallest such case ----

  lemma {:induction false} BySole(log: seq<Record>, authors: seq<Author>, a: Author)
    requires |log| == |authors| && forall k :: 0 <= k < |log| ==> authors[k] == a
    ensures By(log, authors, a) == log
  {
    if log != [] {
      var n := |log| - 1;
      BySole(log[..n], authors[..n], a);
      assert log == log[..n] + [log[n]];
    }
  }

  // One client sends a reading with id 0 and then one with id 7.
  const TWO_ROUNDS := [
    ClientHandler.Round(0, ClientHandler.Got(0), ClientHandler.Got(20.0), ClientHandler.Got(1), 0),
    ClientHandler.Round(0, ClientHandler.Got(7), ClientHandler.Got(21.0), ClientHandler.Got(2), 0)]

  lemma BothAreSent(timeout: nat)
    ensures ClientHandler.Sent(TWO_ROUNDS, timeout) == [Record(0, 20.0, 1), Record(7, 21.0, 2)]
  {
    var first, second := TWO_ROUNDS[0], TWO_ROUNDS[1];
    assert ClientHandler.Accepted(first, timeout) && ClientHandler.Accepted(second, timeout);
    assert TWO_ROUNDS[1..] == [second] && [second][1..] == [];
    assert ClientHandler.Sent([second], timeout) == [Record(7, 21.0, 2)] + [];
  }

  // With a single client the buffer holds what it sent, and then the end marker.
  lemma OneClient(timeout: int, client: Client, s: State)
    requires Reachable(1, timeout, [client], s) && Completed(s)
    ensures InBounds(s.cells, s.order) && s.order != []
    ensures Body(s) == ClientHandler.Sent(client, timeout)
  {
    FinishedByOne(timeout, client, s);
    ClientIsLogged(1, timeout, [client], s, 0);
    ByAllButLast(Log(s.cells, s.order), Authors(s.cells, s.order), Handler(0));
  }

  lemma ByAllButLast(log: seq<Record>, authors: seq<Author>, a: Author)
    requires |log| == |authors| > 0 && authors[|log| - 1] != a
    requires forall k :: 0 <= k < |log| - 1 ==> authors[k] == a
    ensures By(log, authors, a) == log[..|log| - 1]
  {
    BySole(log[..|log| - 1], authors[..|log| - 1], a);
  }

  lemma FinishedByOne(timeout: int, client: Client, s: State)
    requires Reachable(1, timeout, [client], s) && Completed(s)
    ensures InBounds(s.cells, s.order)
    ensures var authors := Authors(s.cells, s.order);
      authors != [] && authors[|authors| - 1].Listener?
      && forall k :: 0 <= k < |authors| - 1 ==> authors[k] == Handler(0)
  {
    ReachableInvariant(1, timeout, [client], s);
    AllGone(s);
    FinishedLog(s);
    var authors := Authors(s.cells, s.order);
    forall k | 0 <= k < |authors| - 1 ensures authors[k] == Handler(0) {
      WrittenByOne(s, k);
    }
  }

  lemma WrittenByOne(s: State, k: nat)
    requires Sources(s) && MarkerLast(s) && |s.handlers| == 1 && k < |s.order| - 1
    ensures Authors(s.cells, s.order)[k] == Handler(0)
  {
    var a := Authors(s.cells, s.order)[k];
    assert Exists(s, a) && !a.Listener?;
  }

  /** The gateway comes to its end with both in the buffer, an empty database file and nothing seen by the
      data manager. */
  lemma ReadingNeverStored(timeout: nat) returns (s: State)
    ensures Reachable(1, timeout, [TWO_ROUNDS], s) && Completed(s)
    ensures InBounds(s.cells, s.order) && s.order != []
    ensures Body(s) == [Record(0, 20.0, 1), Record(7, 21.0, 2)]
    ensures s.db.rows == [] && s.mgr.rows == []
  {
    BothAreSent(timeout);
    s := Connects(1, timeout, [TWO_ROUNDS], 1);
    assert [TWO_ROUNDS][..1] == [TWO_ROUNDS];
    s := CanComplete(1, timeout, [TWO_ROUNDS], s);
    OneClient(timeout, TWO_ROUNDS, s);
    GatewayAgreement(1, timeout, [TWO_ROUNDS], s);
    BeforeMarkerOfBody(Body(s), END_MARKER);
  }
}
