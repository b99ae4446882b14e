/** What holds in every execution of the gateway, and at the end of every completed one. */
module GatewayRuns {
  import opened Records
  import opened Executions
  import opened Gateway
  import opened GatewayMemory
  import opened GatewayCounters
  import opened GatewayReaders
  import opened GatewaySources
  import opened GatewayClients
  import ClientHandler
  import SensorWindows

  ghost predicate Invariant(s: State) {
    && Memory(s) && Counted(s) && Ordered(s) && ReadersTrack(s) && Sources(s) && MarkerLast(s)
  }

  lemma StepKeepsInvariant(s: State, e: Event)
    requires Invariant(s) && Enabled(s, e)
    ensures Invariant(Apply(s, e))
  {
    StepKeepsMemory(s, e);
    StepKeepsCounts(s, e);
    StepKeepsOrdered(s, e);
    StepKeepsTrack(s, e);
    StepKeepsSources(s, e);
    StepKeepsMarkerLast(s, e);
  }

  lemma StepKeepsSetup(s: State, e: Event)
    requires Enabled(s, e)
    ensures Apply(s, e).maxConn == s.maxConn && Apply(s, e).timeout == s.timeout
  {
  }

  lemma StartInvariant(maxConn: nat, timeout: int)
    ensures Invariant(Start(maxConn, timeout))
  {
    var s := Start(maxConn, timeout);
    assert Memory(s) && Counted(s) && Ordered(s) && ReadersTrack(s) && MarkerLast(s);
    assert SourceOf(s, Listener);
    assert Sources(s);
  }

  lemma ReachableInvariant(maxConn: nat, timeout: int, clients: seq<Client>, t: State)
    requires Reachable(maxConn, timeout, clients, t)
    ensures Invariant(t) && Serves(clients, t) && t.maxConn == maxConn && t.timeout == timeout
  {
    var es :| Execution(Next, Start(maxConn, timeout), es, t) && Accepts(es) == clients;
    StartInvariant(maxConn, timeout);
    var inv := (s: State) => Invariant(s) && s.maxConn == maxConn && s.timeout == timeout;
    forall u, e | inv(u) && Next(u, e).Some? ensures inv(Next(u, e).value) {
      StepKeepsInvariant(u, e);
      StepKeepsSetup(u, e);
    }
    Induction(Next, inv, Start(maxConn, timeout), es, t);
    ExecutionServes([], Start(maxConn, timeout), es, t);
    assert [] + clients == clients;
  }

  // ---- In every reachable state ----

  /** The connection counters: terminations never overtake connections, connections never exceed the
      maximum, their difference is the number of accepted connections whose thread is not through; the
      else branch of the second test is never taken; and the listener never sleeps once every
      connection has terminated. */
  lemma CounterProtocol(maxConn: nat, timeout: int, clients: seq<Client>, s: State)
    requires Reachable(maxConn, timeout, clients, s)
    ensures 0 <= s.terms <= s.conns <= maxConn
    ensures s.conns - s.terms == Sum(LiveBit, s.handlers) + SpawningBit(s)
    ensures !s.pc.Rejecting?
    ensures s.pc.Sleeping? ==> s.conns == maxConn && s.terms < maxConn
  {
    ReachableInvariant(maxConn, timeout, clients, s);
    LiveOrGone(s.handlers);
  }

  // Some connection thread has not terminated yet.
  predicate SomeLive(hs: seq<Handler>) {
    exists i :: 0 <= i < |hs| && !hs[i].gone
  }

  lemma TermsTellLive(s: State)
    requires Counted(s) && (AllAccepted(s.pc) || (s.pc.AtLoop? && s.conns == s.maxConn))
    ensures |s.handlers| == s.maxConn
    ensures s.terms < s.maxConn <==> SomeLive(s.handlers)
  {
    Bits();
    SumFull(GoneBit, s.handlers);
    assert forall i :: 0 <= i < |s.handlers| ==> (GoneBit(s.handlers[i]) == 1 <==> s.handlers[i].gone);
  }

  /** A terminating connection wakes the sleeping listener exactly if it is the last one. */
  lemma TerminationWakes(maxConn: nat, timeout: int, clients: seq<Client>, s: State, i: nat)
    requires Reachable(maxConn, timeout, clients, s) && s.pc.Sleeping? && Enabled(s, Terminate(i))
    ensures var t := Apply(s, Terminate(i));
      && (t.pc.Woken? <==> forall j :: 0 <= j < |s.handlers| && j != i ==> s.handlers[j].gone)
      && (t.pc.Woken? || t.pc.Sleeping?)
  {
    ReachableInvariant(maxConn, timeout, clients, s);
    var t := Apply(s, Terminate(i));
    TerminateCounts(s, i);
    TermsTellLive(t);
    assert forall j :: 0 <= j < |s.handlers| && j != i ==> t.handlers[j] == s.handlers[j];
  }

  /** The listener goes on accepting exactly until there is a connection for each of the maximum, and from
      then on sleeps exactly while one of them is alive. */
  lemma ListenerDecides(maxConn: nat, timeout: int, clients: seq<Client>, s: State)
    requires Reachable(maxConn, timeout, clients, s)
    ensures s.pc.AtLoop? ==>
      Apply(s, Loop).pc ==
        if |s.handlers| < maxConn then Accepting else if SomeLive(s.handlers) then Sleeping else Closing
    ensures s.pc.Woken? ==> Apply(s, Recheck).pc == if SomeLive(s.handlers) then Sleeping else Closing
    ensures s.pc.Sleeping? ==> SomeLive(s.handlers)
  {
    ReachableInvariant(maxConn, timeout, clients, s);
    if s.pc.AtLoop? {
      LoopDecides(s);
    } else if AllAccepted(s.pc) {
      TermsTellLive(s);
    }
  }

  lemma LoopDecides(s: State)
    requires Counted(s) && s.pc.AtLoop?
    ensures Apply(s, Loop).pc ==
      if |s.handlers| < s.maxConn then Accepting else if SomeLive(s.handlers) then Sleeping else Closing
  {
    if s.conns == s.maxConn {
      TermsTellLive(s);
    }
  }

  /** The scheduler is free: whatever else goes on, a live connection outside the critical section can go on
      while the mutex is free, any client can be the next to connect, and a sleeping listener can wake up
      without a signal. (The mutex's holder and the readers can always go on: UnlockedReads.) */
  lemma ThreadsAreFree(maxConn: nat, timeout: int, clients: seq<Client>, s: State)
    requires Reachable(maxConn, timeout, clients, s)
    ensures forall i: nat :: i < |s.handlers| && !s.handlers[i].gone && s.lock.Free? ==>
      Enabled(s, Fill(Handler(i))) || Enabled(s, Enter(Handler(i))) || Enabled(s, Terminate(i))
    ensures s.pc.Accepting? ==> forall client :: Enabled(s, Accept(client))
    ensures s.pc.Sleeping? ==> Enabled(s, Spurious) && Apply(s, Spurious) == s.(pc := Woken)
  {
    ReachableInvariant(maxConn, timeout, clients, s);
    forall i: nat | i < |s.handlers| && !s.handlers[i].gone && s.lock.Free?
      ensures Enabled(s, Fill(Handler(i))) || Enabled(s, Enter(Handler(i))) || Enabled(s, Terminate(i))
    {
      HandlerIsFree(s, i);
    }
  }

  lemma HandlerIsFree(s: State, i: nat)
    requires Memory(s) && i < |s.handlers| && !s.handlers[i].gone && s.lock.Free?
    ensures Enabled(s, Fill(Handler(i))) || Enabled(s, Enter(Handler(i))) || Enabled(s, Terminate(i))
  {
    assert PendingOf(s, Handler(i));
  }

  /** The end marker is unique and last: the listener inserts at most one record, only after every
      connection thread has made its last insert, nothing is ever behind it, and the database thread
      counts it once, as it exits, and never puts it back. */
  lemma MarkerIsLastAndUnique(maxConn: nat, timeout: int, clients: seq<Client>, s: State)
    requires Reachable(maxConn, timeout, clients, s)
    ensures InBounds(s.cells, s.order)
    ensures var authors := Authors(s.cells, s.order);
      forall k :: 0 <= k < |authors| && authors[k].Listener? ==>
        k == |authors| - 1 && Log(s.cells, s.order)[k] == Record(0, 0.0, 0)
    ensures s.marker.pending.Some? || s.pc.Finished? ==>
      |s.handlers| == maxConn && forall i :: 0 <= i < maxConn ==>
        s.handlers[i].gone && s.handlers[i].prod.pending == None
        && s.handlers[i].prod.sent == |s.handlers[i].prod.script|
    ensures !s.db.pc.Reinserting? && s.eos == if s.db.pc.Done? then 1 else 0
  {
    ReachableInvariant(maxConn, timeout, clients, s);
    var log, authors := Log(s.cells, s.order), Authors(s.cells, s.order);
    if s.pc.Closing? || s.pc.Finished? {
      AllGone(s);
    }
    forall k | 0 <= k < |authors| && authors[k].Listener? ensures log[k] == END_MARKER {
      ListenerWritesMarker(s, k);
    }
  }

  lemma ListenerWritesMarker(s: State, k: nat)
    requires Sources(s) && Ordered(s) && k < |s.order| && Authors(s.cells, s.order)[k] == Listener
    ensures Log(s.cells, s.order)[k] == END_MARKER
  {
    var log, authors := Log(s.cells, s.order), Authors(s.cells, s.order);
    assert SourceOf(s, Listener);
    ByMembers(log, authors, Listener);
    assert log[k] in By(log, authors, Listener);
  }

  /** Unlocked reads are safe: at every moment each reader has used a prefix of the log, a record that
      sbuffer_read returns is the next one, and no load or store follows a null or dangling pointer. */
  lemma UnlockedReads(maxConn: nat, timeout: int, clients: seq<Client>, s: State, w: Who)
    requires Reachable(maxConn, timeout, clients, s)
    ensures InBounds(s.cells, s.order)
    ensures var r := TheReader(s, w);
      var log := Log(s.cells, s.order);
      && r.rows <= log && MarkerFree(r.rows)
      && (r.pc.Deliver? ==> |r.rows| < |log| && r.pc.data == log[|r.rows|])
      && (!r.pc.Done? ==> Enabled(s, Read(w)))
      && (r.pc.CheckHead? || r.pc.CheckNext? ==> NextReader(s, w).pc.CheckHead? ==> r.rows == log)
    ensures s.lock.Held? ==> forall b :: Enabled(s, Advance(b))
  {
    ReachableInvariant(maxConn, timeout, clients, s);
    var r := TheReader(s, w);
    if !r.pc.Done? {
      ReadNeverFaults(s, w);
      if (r.pc.CheckHead? || r.pc.CheckNext?) && NextReader(s, w).pc.CheckHead? {
        EmptyMeansAllSeen(s, w);
      }
    }
    if s.lock.Held? {
      forall b ensures Enabled(s, Advance(b)) {
        InsertNeverFaults(s, b);
      }
    }
  }

  // What thread a has put into the log: its completed inserts and a node just published.
  ghost function Put(s: State, a: Author): seq<Record>
    requires InBounds(s.cells, s.order)
  {
    By(Log(s.cells, s.order), Authors(s.cells, s.order), a)
  }

  lemma PutIsSent(s: State)
    requires Sources(s)
    ensures forall i: nat :: i < |s.handlers| ==>
      var p := s.handlers[i].prod;
      Put(s, Handler(i)) <= p.script && p.sent <= |Put(s, Handler(i))| <= p.sent + 1
  {
    forall i: nat | i < |s.handlers|
      ensures var p := s.handlers[i].prod;
        Put(s, Handler(i)) <= p.script && p.sent <= |Put(s, Handler(i))| <= p.sent + 1
    {
      assert SourceOf(s, Handler(i));
    }
  }

  /** The log holds no marker but the listener's, which is last, exactly as long as no connection has
      inserted a record with the marker's id; and what the i-th connection has inserted is a prefix of what
      the i-th client sends, at most one record longer than its completed inserts. */
  lemma SoleMarkerExactly(maxConn: nat, timeout: int, clients: seq<Client>, s: State)
    requires Reachable(maxConn, timeout, clients, s)
    ensures InBounds(s.cells, s.order)
    ensures (forall k :: 0 <= k < |s.order| && IsMarker(Log(s.cells, s.order)[k]) ==>
              k == |s.order| - 1 && Authors(s.cells, s.order)[k].Listener?)
      <==> forall i: nat :: i < |s.handlers| ==> MarkerFree(Put(s, Handler(i)))
    ensures |s.handlers| <= |clients| && forall i: nat :: i < |s.handlers| ==>
      && Put(s, Handler(i)) <= ClientHandler.Sent(clients[i], timeout)
      && s.handlers[i].prod.sent <= |Put(s, Handler(i))| <= s.handlers[i].prod.sent + 1
  {
    ReachableInvariant(maxConn, timeout, clients, s);
    PutIsSent(s);
    if forall i: nat :: i < |s.handlers| ==> MarkerFree(Put(s, Handler(i))) {
      forall k | 0 <= k < |s.order| && IsMarker(Log(s.cells, s.order)[k])
        ensures k == |s.order| - 1 && Authors(s.cells, s.order)[k].Listener?
      {
        MarkerIsListeners(s, k);
      }
    } else {
      var i: nat, j :| i < |s.handlers| && 0 <= j < |Put(s, Handler(i))| && IsMarker(Put(s, Handler(i))[j]);
      var k := PutInLog(s, Handler(i), j);
    }
  }

  lemma MarkerIsListeners(s: State, k: nat)
    requires Sources(s) && MarkerLast(s) && k < |s.order| && IsMarker(Log(s.cells, s.order)[k])
    requires forall i: nat :: i < |s.handlers| ==> MarkerFree(Put(s, Handler(i)))
    ensures k == |s.order| - 1 && Authors(s.cells, s.order)[k].Listener?
  {
    var log, authors := Log(s.cells, s.order), Authors(s.cells, s.order);
    ByMembers(log, authors, authors[k]);
    assert log[k] in Put(s, authors[k]);
  }

  lemma PutInLog(s: State, a: Author, j: nat) returns (k: nat)
    requires InBounds(s.cells, s.order) && j < |Put(s, a)|
    ensures k < |s.order| && Authors(s.cells, s.order)[k] == a && Log(s.cells, s.order)[k] == Put(s, a)[j]
  {
    var log, authors := Log(s.cells, s.order), Authors(s.cells, s.order);
    ByMembers(log, authors, a);
    assert Put(s, a)[j] in By(log, authors, a);
    k :| 0 <= k < |log| && authors[k] == a && log[k] == Put(s, a)[j];
  }

  // ---- At the end ----

  // The log of a completed execution, without the listener's marker.
  function Body(s: State): seq<Record>
    requires InBounds(s.cells, s.order) && s.order != []
  {
    Log(s.cells, s.order)[..|s.order| - 1]
  }

  lemma ScriptIsLogged(s: State, i: nat)
    requires Sources(s) && Ordered(s) && i < |s.handlers| && s.handlers[i].gone
    ensures By(Log(s.cells, s.order), Authors(s.cells, s.order), Handler(i)) == s.handlers[i].prod.script
  {
    assert SourceOf(s, Handler(i));
  }

  lemma SoleRecord(log: seq<Record>, authors: seq<Author>, a: Author, r: Record)
    requires |log| == |authors| && By(log, authors, a) == [r]
    ensures exists k :: 0 <= k < |log| && authors[k] == a && log[k] == r
  {
    ByMembers(log, authors, a);
    assert r in By(log, authors, a);
  }

  lemma FinishedLog(s: State)
    requires Sources(s) && Ordered(s) && MarkerLast(s) && s.pc.Finished?
    ensures s.order != []
    ensures Authors(s.cells, s.order)[|s.order| - 1] == Listener
    ensures Log(s.cells, s.order) == Body(s) + [END_MARKER]
  {
    var log, authors := Log(s.cells, s.order), Authors(s.cells, s.order);
    assert SourceOf(s, Listener);
    assert By(log, authors, Listener) == s.marker.script == [END_MARKER];
    SoleRecord(log, authors, Listener, END_MARKER);
    var k :| 0 <= k < |log| && authors[k] == Listener && log[k] == END_MARKER;
    assert k == |log| - 1;
    LastApart(log);
  }

  lemma LastApart(log: seq<Record>)
    requires log != []
    ensures log == log[..|log| - 1] + [log[|log| - 1]]
  {
  }

  // A marker some connection sent is in the body of the completed log, and the other way round.
  lemma ScriptInBody(s: State, i: nat, j: nat)
    requires Sources(s) && Ordered(s) && MarkerLast(s) && s.pc.Finished?
    requires i < |s.handlers| && s.handlers[i].gone && j < |s.handlers[i].prod.script|
    ensures s.order != [] && s.handlers[i].prod.script[j] in Body(s)
  {
    var log, authors := Log(s.cells, s.order), Authors(s.cells, s.order);
    FinishedLog(s);
    ScriptIsLogged(s, i);
    ByMembers(log, authors, Handler(i));
    var r := s.handlers[i].prod.script[j];
    assert r in By(log, authors, Handler(i));
    var k :| 0 <= k < |log| && authors[k] == Handler(i) && log[k] == r;
    assert Body(s)[k] == r;
  }

  lemma BodyFromScripts(s: State, k: nat) returns (i: nat)
    requires Sources(s) && Ordered(s) && MarkerLast(s) && s.pc.Finished?
    requires forall i :: 0 <= i < |s.handlers| ==> s.handlers[i].gone
    requires k + 1 < |s.order|
    ensures i < |s.handlers| && Body(s)[k] in s.handlers[i].prod.script
  {
    var log, authors := Log(s.cells, s.order), Authors(s.cells, s.order);
    assert !authors[k].Listener?;
    i := authors[k].i;
    ScriptIsLogged(s, i);
    ByMembers(log, authors, Handler(i));
  }

  // A completed log carries a marker in its body exactly when some connection sent one.
  lemma BodyMarkers(s: State)
    requires Sources(s) && Ordered(s) && MarkerLast(s) && s.pc.Finished?
    requires forall i :: 0 <= i < |s.handlers| ==> s.handlers[i].gone
    ensures s.order != []
    ensures MarkerFree(Body(s)) <==> forall i :: 0 <= i < |s.handlers| ==> MarkerFree(s.handlers[i].prod.script)
  {
    FinishedLog(s);
    if MarkerFree(Body(s)) {
      forall i, j | 0 <= i < |s.handlers| && 0 <= j < |s.handlers[i].prod.script|
        ensures !IsMarker(s.handlers[i].prod.script[j])
      {
        ScriptInBody(s, i, j);
      }
    }
    if forall i :: 0 <= i < |s.handlers| ==> MarkerFree(s.handlers[i].prod.script) {
      forall k | 0 <= k < |Body(s)| ensures !IsMarker(Body(s)[k]) {
        var i := BodyFromScripts(s, k);
      }
    }
  }

  lemma DoneReaderIsComplete(s: State, w: Who)
    requires Invariant(s) && TheReader(s, w).pc.Done?
    ensures TheReader(s, w).rows == BeforeMarker(Log(s.cells, s.order))
  {
    var r, log := TheReader(s, w), Log(s.cells, s.order);
    assert log[..|r.rows|] == r.rows;
    BeforeMarkerAt(log, |r.rows|);
  }

  // What the i-th client sends, before the first round that fails or is too slow.
  function SentBy(clients: seq<Client>, timeout: int, i: nat): seq<Record>
    requires i < |clients|
  {
    ClientHandler.Sent(clients[i], timeout)
  }

  /** Gateway agreement: after every completed execution the database thread and the data manager have
      used the same sequence, namely the log up to its first marker; the log is one marker behind the
      records of all connections, and the i-th connection's are what the i-th accepted client sent,
      complete and in order; that sequence is everything the clients sent if and only if none of them
      used the marker's id, and every reading they sent if and only if none got into the log behind a
      record with that id. */
  lemma GatewayAgreement(maxConn: nat, timeout: int, clients: seq<Client>, s: State)
    requires Reachable(maxConn, timeout, clients, s) && Completed(s)
    ensures InBounds(s.cells, s.order) && s.order != [] && |s.handlers| == |clients| == maxConn
    ensures Log(s.cells, s.order) == Body(s) + [END_MARKER]
    ensures s.db.rows == s.mgr.rows == BeforeMarker(Log(s.cells, s.order))
    ensures forall i :: 0 <= i < maxConn ==>
      By(Log(s.cells, s.order), Authors(s.cells, s.order), Handler(i)) == SentBy(clients, timeout, i)
    ensures s.db.rows == Body(s) <==> forall i :: 0 <= i < maxConn ==> MarkerFree(SentBy(clients, timeout, i))
    ensures s.db.rows == Data(Body(s)) <==> MarkersTrail(Body(s))
  {
    ReachableInvariant(maxConn, timeout, clients, s);
    AllGone(s);
    FinishedLog(s);
    ScriptsAreSent(clients, s);
    BodyMarkers(s);
    DoneReaderIsComplete(s, Database);
    DoneReaderIsComplete(s, Manager);
    BeforeMarkerIsPrefix(Log(s.cells, s.order));
    BeforeMarkerIsData(Body(s));
    BeforeMarkerOfBody(Body(s), END_MARKER);
    if MarkerFree(Body(s)) {
      assert Body(s) + [END_MARKER] + [] == Log(s.cells, s.order);
      BeforeFirstMarker(Body(s), END_MARKER, []);
    }
    forall i | 0 <= i < maxConn
      ensures By(Log(s.cells, s.order), Authors(s.cells, s.order), Handler(i)) == SentBy(clients, timeout, i)
    {
      ClientIsLogged(maxConn, timeout, clients, s, i);
    }
  }

  // The i-th connection's part of a completed log.
  lemma ClientIsLogged(maxConn: nat, timeout: int, clients: seq<Client>, s: State, i: nat)
    requires Reachable(maxConn, timeout, clients, s) && Completed(s) && i < |clients|
    ensures InBounds(s.cells, s.order)
    ensures By(Log(s.cells, s.order), Authors(s.cells, s.order), Handler(i)) == SentBy(clients, timeout, i)
  {
    ReachableInvariant(maxConn, timeout, clients, s);
    ScriptsAreSent(clients, s);
    ScriptIsLogged(s, i);
  }

  lemma ScriptsAreSent(clients: seq<Client>, s: State)
    requires Serves(clients, s) && s.pc.Finished?
    ensures |clients| == |s.handlers|
    ensures forall i :: 0 <= i < |clients| ==> s.handlers[i].prod.script == SentBy(clients, s.timeout, i)
  {
  }

  /** A client that uses the marker's id anywhere cuts both readers short, by the same amount. */
  lemma MarkerIdTruncates(maxConn: nat, timeout: int, clients: seq<Client>, s: State, i: nat)
    requires Reachable(maxConn, timeout, clients, s) && Completed(s)
    requires i < |clients| && !MarkerFree(SentBy(clients, timeout, i))
    ensures InBounds(s.cells, s.order) && s.order != []
    ensures s.mgr.rows == s.db.rows < Body(s)
    ensures IsMarker(Body(s)[|s.db.rows|])
  {
    GatewayAgreement(maxConn, timeout, clients, s);
    BeforeMarkerIsPrefix(Body(s));
    BeforeMarkerOfBody(Body(s), END_MARKER);
  }

  lemma BeforeMarkerOfBody(body: seq<Record>, m: Record)
    requires IsMarker(m)
    ensures BeforeMarker(body + [m]) == BeforeMarker(body)
  {
    var k := |BeforeMarker(body)|;
    BeforeMarkerIsPrefix(body);
    assert (body + [m])[..k] == BeforeMarker(body);
    BeforeMarkerAt(body + [m], k);
  }

  /** From sockets to windows: after a completed execution the data manager's window for each sensor of
      the room map holds the latest values that sensor has in the rows of the database file. */
  lemma WindowsMatchDatabase(maxConn: nat, timeout: int, clients: seq<Client>, s: State,
                             c: SensorWindows.Config, lines: seq<SensorWindows.MapLine>, k: nat)
    requires Reachable(maxConn, timeout, clients, s) && Completed(s)
    requires k < |lines| && SensorWindows.DescribedBy(lines, lines[k].sensor, k)
    ensures var entries := SensorWindows.AbsorbAll(c, SensorWindows.Load(c, lines), s.mgr.rows).0;
      |entries| == |lines| &&
      SensorWindows.HoldsLatest(c, entries[|lines| - 1 - k].window, SensorWindows.Readings(s.db.rows, lines[k].sensor))
  {
    GatewayAgreement(maxConn, timeout, clients, s);
    SensorWindows.WindowsHoldLatest(c, lines, s.mgr.rows, k);
  }

  // ---- No deadlock ----

  // Reader w has used every reachable record and is asking for more.
  predicate Polling(s: State, w: Who) {
    var r := TheReader(s, w);
    (r.pc.CheckHead? || r.pc.CheckNext?) && |r.rows| == |s.order|
  }

  // Nothing can happen but polls of readers that have seen everything, and spurious wakeups.
  ghost predicate Stuck(s: State) {
    forall e :: Enabled(s, e) ==> e.Spurious? || (e.Read? && Polling(s, e.w))
  }

  lemma HandlerCanMove(s: State, i: nat)
    requires Invariant(s) && i < |s.handlers| && !s.handlers[i].gone && s.lock.Free?
    ensures !Stuck(s)
  {
    HandlerIsFree(s, i);
  }

  lemma InsertsAreOver(s: State)
    requires Invariant(s) && Stuck(s)
    ensures s.lock.Free?
    ensures forall i :: 0 <= i < |s.handlers| ==> s.handlers[i].gone
  {
    if s.lock.Held? {
      InsertNeverFaults(s, true);
      assert false;
    }
    forall i | 0 <= i < |s.handlers| ensures s.handlers[i].gone {
      if !s.handlers[i].gone {
        HandlerCanMove(s, i);
      }
    }
  }

  lemma {:induction false} AllGoneCounts(hs: seq<Handler>)
    requires forall i :: 0 <= i < |hs| ==> hs[i].gone
    ensures Sum(GoneBit, hs) == |hs|
  {
    Bits();
    SumFull(GoneBit, hs);
  }

  // With every connection thread gone the listener is not left asleep, and has an event until it ends.
  lemma ListenerCanMove(s: State)
    requires Invariant(s) && s.lock.Free? && !s.pc.Finished?
    requires forall i :: 0 <= i < |s.handlers| ==> s.handlers[i].gone
    ensures !Stuck(s)
  {
    AllGoneCounts(s.handlers);
    var e := match s.pc
      case AtLoop => Loop
      case Accepting => Accept([])
      case Connected(_) => Count
      case Spawning(_) => Spawn
      case Woken => Recheck
      case _ => if s.marker.pending.Some? then Enter(Listener) else Fill(Listener);
    assert Enabled(s, e);
  }

  lemma ListenerIsFinished(s: State)
    requires Invariant(s) && Stuck(s)
    ensures s.pc.Finished?
  {
    InsertsAreOver(s);
    if !s.pc.Finished? {
      ListenerCanMove(s);
    }
  }

  lemma ReaderIsDone(s: State, w: Who)
    requires Invariant(s) && Stuck(s)
    ensures TheReader(s, w).pc.Done?
  {
    ListenerIsFinished(s);
    FinishedLog(s);
    var r, log := TheReader(s, w), Log(s.cells, s.order);
    if !r.pc.Done? {
      ReadNeverFaults(s, w);
      assert Polling(s, w);
      assert r.rows == log && IsMarker(log[|log| - 1]);
      assert false;
    }
  }

  /** No deadlock: where nothing is left but idle polling and spurious wakeups, every thread has come to
      its end; and then nothing at all can happen. */
  lemma GatewayDeadlockFree(maxConn: nat, timeout: int, clients: seq<Client>, s: State)
    requires Reachable(maxConn, timeout, clients, s)
    ensures Stuck(s) <==> Completed(s)
    ensures Completed(s) ==> forall e :: !Enabled(s, e)
  {
    ReachableInvariant(maxConn, timeout, clients, s);
    if Stuck(s) {
      InsertsAreOver(s);
      ListenerIsFinished(s);
      ReaderIsDone(s, Database);
      ReaderIsDone(s, Manager);
    }
    if Completed(s) {
      forall e ensures !Enabled(s, e) {
        CompletedIsQuiet(s, e);
      }
    }
  }

  lemma CompletedIsQuiet(s: State, e: Event)
    requires Ordered(s) && Completed(s)
    ensures !Enabled(s, e)
  {
    match e
    case Fill(a) => InsertsAreDone(s, a);
    case Enter(a) => InsertsAreDone(s, a);
    case Advance(_) =>
      if s.lock.Held? {
        InsertsAreDone(s, s.lock.who);
      }
    case Read(w) => assert TheReader(s, w).pc.Done?;
    case _ =>
  }

  lemma InsertsAreDone(s: State, a: Author)
    requires Ordered(s) && Completed(s)
    ensures Exists(s, a) ==> Prod(s, a).pending == None && Prod(s, a).sent == |Prod(s, a).script|
  {
  }
}
