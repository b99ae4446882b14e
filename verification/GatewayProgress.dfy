/** Every execution of the gateway is finite but for idle polling: a bound on the useful events. */
module GatewayProgress {
  import opened Records
  import opened Executions
  import opened Gateway
  import opened GatewayMemory
  import opened GatewayCounters
  import opened GatewayClients
  import opened GatewayReaders
  import opened GatewayRuns

  function SentOf(h: Handler): nat {
    h.prod.sent
  }

  function PendingBit(p: Producer): nat {
    if p.pending.Some? then 1 else 0
  }

  function PendingOfHandler(h: Handler): nat {
    PendingBit(h.prod)
  }

  function Length(h: Handler): nat {
    |h.prod.script|
  }

  function PublishedAny(s: State): nat {
    if s.lock.Held? && Published(s, s.lock.who) then 1 else 0
  }

  // Nodes are allocated by inserts completed or under way, and published by inserts completed or far enough.
  ghost predicate Tallied(s: State) {
    && |s.cells| == Sum(SentOf, s.handlers) + s.marker.sent + Sum(PendingOfHandler, s.handlers) + PendingBit(s.marker)
    && |s.order| == Sum(SentOf, s.handlers) + s.marker.sent + PublishedAny(s)
  }

  lemma {:induction false} SameSums(hs: seq<Handler>, hs': seq<Handler>)
    requires |hs| == |hs'| && forall i :: 0 <= i < |hs| ==> hs[i].prod == hs'[i].prod
    ensures Sum(SentOf, hs) == Sum(SentOf, hs') && Sum(PendingOfHandler, hs) == Sum(PendingOfHandler, hs')
  {
    if hs != [] {
      SameSums(hs[1..], hs'[1..]);
    }
  }

  // What a producer's change does to the sums.
  lemma ProducerSums(s: State, a: Author, p: Producer)
    requires Exists(s, a)
    ensures var t := SetProd(s, a, p);
      && Sum(SentOf, t.handlers) + t.marker.sent + Prod(s, a).sent == Sum(SentOf, s.handlers) + s.marker.sent + p.sent
      && Sum(PendingOfHandler, t.handlers) + PendingBit(t.marker) + PendingBit(Prod(s, a))
         == Sum(PendingOfHandler, s.handlers) + PendingBit(s.marker) + PendingBit(p)
  {
    if a.Handler? {
      SumUpdate(SentOf, s.handlers, a.i, s.handlers[a.i].(prod := p));
      SumUpdate(PendingOfHandler, s.handlers, a.i, s.handlers[a.i].(prod := p));
    }
  }

  lemma FillTallies(s: State, a: Author)
    requires Tallied(s) && Enabled(s, Fill(a))
    ensures Tallied(Apply(s, Fill(a)))
  {
    ProducerSums(s, a, Prod(s, a).(pending := Some(|s.cells|)));
  }

  lemma UnlockTallies(s: State, headFirst: bool)
    requires Tallied(s) && LockOwned(s) && Enabled(s, Advance(headFirst)) && s.lock.stage.Complete?
    ensures Tallied(Apply(s, Advance(headFirst)))
  {
    var p := Prod(s, s.lock.who);
    ProducerSums(s, s.lock.who, p.(pending := None, sent := p.sent + 1));
  }

  lemma AdvanceTallies(s: State, headFirst: bool)
    requires Tallied(s) && LockOwned(s) && Enabled(s, Advance(headFirst)) && !s.lock.stage.Complete?
    ensures Tallied(Apply(s, Advance(headFirst)))
  {
  }

  lemma StepTallies(s: State, e: Event)
    requires Tallied(s) && LockOwned(s) && Enabled(s, e)
    ensures Tallied(Apply(s, e))
  {
    match e
    case Fill(a) => FillTallies(s, a);
    case Advance(headFirst) =>
      if s.lock.stage.Complete? {
        UnlockTallies(s, headFirst);
      } else {
        AdvanceTallies(s, headFirst);
      }
    case Terminate(_) => SameSums(s.handlers, Apply(s, e).handlers);
    case Spawn =>
      SumSnoc(SentOf, s.handlers, HandlerThread(Producer(s.pc.script, 0, None), false));
      SumSnoc(PendingOfHandler, s.handlers, HandlerThread(Producer(s.pc.script, 0, None), false));
    case _ =>
  }

  // ---- Work done ----

  function StageRank(l: Lock): nat {
    match l
    case Free => 0
    case Held(_, _, stage) => if stage.Entered? then 1 else if stage.Complete? then 3 else 2
  }

  function PcRank(pc: ListenerPc): nat {
    match pc
    case AtLoop => 0
    case Accepting => 1
    case Connected(_) => 2
    case Spawning(_) => 3
    case Rejecting => 3
    case Sleeping => 2
    case Woken => 1
    case Closing => 3
    case Finished => 3
  }

  function ReaderWork(r: Reader): nat {
    5 * |r.rows| + match r.pc
      case CheckHead => 0
      case CopyHead => 1
      case CheckNext => 1
      case CopyNext => 2
      case StepHead(_) => 3
      case StepNext(_) => 3
      case Deliver(_) => 4
      case Reinserting => 5
      case Done => 5
  }

  function Work(s: State): nat {
    |s.cells| + 4 * (Sum(SentOf, s.handlers) + s.marker.sent) + StageRank(s.lock)
    + 2 * s.terms + 4 * |s.handlers| + PcRank(s.pc)
    + ReaderWork(s.db) + ReaderWork(s.mgr)
  }

  // A read that returns SBUFFER_EMPTY, or a spurious wakeup of the listener.
  predicate Idle(s: State, e: Event)
    requires Enabled(s, e)
  {
    || e.Spurious?
    || (e.Read? && (TheReader(s, e.w).pc.CheckHead? || TheReader(s, e.w).pc.CheckNext?)
        && NextReader(s, e.w).pc.CheckHead?)
  }

  lemma UnlockWorks(s: State, headFirst: bool)
    requires LockOwned(s) && Ordered(s) && Enabled(s, Advance(headFirst)) && s.lock.stage.Complete?
    ensures Work(Apply(s, Advance(headFirst))) > Work(s)
  {
    var p := Prod(s, s.lock.who);
    ProducerSums(s, s.lock.who, p.(pending := None, sent := p.sent + 1));
  }

  lemma InsertWorks(s: State, e: Event)
    requires LockOwned(s) && Ordered(s) && Enabled(s, e) && (e.Fill? || e.Enter? || e.Advance?)
    ensures Work(Apply(s, e)) > Work(s)
  {
    match e
    case Fill(a) => ProducerSums(s, a, Prod(s, a).(pending := Some(|s.cells|)));
    case Advance(headFirst) =>
      if s.lock.stage.Complete? {
        UnlockWorks(s, headFirst);
      }
    case _ =>
  }

  lemma ReadWorks(s: State, w: Who)
    requires Enabled(s, Read(w))
    ensures ReaderWork(NextReader(s, w)) >= ReaderWork(TheReader(s, w)) + if Idle(s, Read(w)) then -1 else 1
  {
  }

  // The listener's own events, and a termination.
  lemma ListenerWorks(s: State, e: Event)
    requires Counted(s) && Enabled(s, e) && !e.Fill? && !e.Enter? && !e.Advance? && !e.Read?
    ensures Work(Apply(s, e)) >= Work(s) + if Idle(s, e) then -1 else 1
  {
    match e
    case Terminate(_) => SameSums(s.handlers, Apply(s, e).handlers);
    case Spawn => SumSnoc(SentOf, s.handlers, HandlerThread(Producer(s.pc.script, 0, None), false));
    case _ =>
  }

  lemma ReadStepWorks(s: State, w: Who)
    requires Enabled(s, Read(w))
    ensures Work(Apply(s, Read(w))) >= Work(s) + if Idle(s, Read(w)) then -1 else 1
  {
    ReadWorks(s, w);
  }

  lemma StepWorks(s: State, e: Event)
    requires LockOwned(s) && Counted(s) && Ordered(s) && Enabled(s, e)
    ensures Work(Apply(s, e)) >= Work(s) + if Idle(s, e) then -1 else 1
  {
    match e
    case Fill(_) => InsertWorks(s, e);
    case Enter(_) => InsertWorks(s, e);
    case Advance(_) => InsertWorks(s, e);
    case Read(w) => ReadStepWorks(s, w);
    case _ => ListenerWorks(s, e);
  }

  function IdleEvents(s: State, es: seq<Event>): nat
    decreases |es|
  {
    if es == [] || !Enabled(s, es[0]) then 0
    else (if Idle(s, es[0]) then 1 else 0) + IdleEvents(Apply(s, es[0]), es[1..])
  }

  lemma {:induction false} ExecutionWorks(s: State, es: seq<Event>, t: State)
    requires Invariant(s) && Tallied(s) && Execution(Next, s, es, t)
    ensures Work(s) + |es| <= Work(t) + 2 * IdleEvents(s, es)
    ensures Invariant(t) && Tallied(t)
    decreases |es|
  {
    if es != [] {
      StepWorks(s, es[0]);
      StepKeepsInvariant(s, es[0]);
      StepTallies(s, es[0]);
      ExecutionWorks(Apply(s, es[0]), es[1..], t);
    }
  }

  lemma {:induction false} SumsWithin(hs: seq<Handler>)
    requires forall i :: 0 <= i < |hs| ==> hs[i].prod.sent + PendingBit(hs[i].prod) <= |hs[i].prod.script|
    ensures Sum(SentOf, hs) + Sum(PendingOfHandler, hs) <= Sum(Length, hs)
  {
    if hs != [] {
      SumsWithin(hs[1..]);
    }
  }

  // No more nodes than records to insert, no more reachable nodes than nodes.
  lemma NodesWithin(s: State)
    requires Invariant(s) && Tallied(s)
    ensures |s.order| <= |s.cells| <= Sum(Length, s.handlers) + 1
    ensures Sum(SentOf, s.handlers) + s.marker.sent <= |s.cells|
  {
    forall i | 0 <= i < |s.handlers|
      ensures s.handlers[i].prod.sent + PendingBit(s.handlers[i].prod) <= |s.handlers[i].prod.script|
    {
      assert PendingOf(s, Handler(i));
    }
    SumsWithin(s.handlers);
    assert PendingOf(s, Listener);
    if s.lock.Held? && s.lock.who.Handler? {
      SumAtLeast(PendingOfHandler, s.handlers, s.lock.who.i);
    }
  }

  lemma ReaderWorkWithin(r: Reader, n: nat)
    requires |r.rows| <= n
    ensures ReaderWork(r) <= 5 * n + 5
  {
  }

  lemma WorkWithin(s: State, n: nat)
    requires |s.cells| <= n && Sum(SentOf, s.handlers) + s.marker.sent <= n
    requires |s.db.rows| <= n && |s.mgr.rows| <= n
    requires s.terms <= s.maxConn && |s.handlers| <= s.maxConn
    ensures Work(s) <= 15 * n + 6 * s.maxConn + 16
  {
    ReaderWorkWithin(s.db, n);
    ReaderWorkWithin(s.mgr, n);
  }

  // No state has done more work than this.
  function WorkLimit(s: State): nat {
    15 * (Sum(Length, s.handlers) + 1) + 6 * s.maxConn + 16
  }

  lemma ReachableWork(maxConn: nat, timeout: int, es: seq<Event>, t: State)
    requires Execution(Next, Start(maxConn, timeout), es, t)
    ensures Invariant(t) && t.maxConn == maxConn
    ensures |es| <= Work(t) + 2 * IdleEvents(Start(maxConn, timeout), es) && Work(t) <= WorkLimit(t)
  {
    var s := Start(maxConn, timeout);
    StartInvariant(maxConn, timeout);
    ExecutionWorks(s, es, t);
    assert Reachable(maxConn, timeout, Accepts(es), t);
    ReachableInvariant(maxConn, timeout, Accepts(es), t);
    NodesWithin(t);
    LiveOrGone(t.handlers);
    assert |t.db.rows| <= |t.order| && |t.mgr.rows| <= |t.order|;
    WorkWithin(t, Sum(Length, t.handlers) + 1);
  }

  /** Termination but for idling: whatever the scheduler and the clients do, an execution has at most
      15 events per record sent, 6 per connection and 31 more, not counting the polls that find nothing
      and the spurious wakeups, each of which can undo one event. */
  lemma GatewayTerminates(maxConn: nat, timeout: int, es: seq<Event>, t: State)
    requires Execution(Next, Start(maxConn, timeout), es, t)
    ensures |es| <= 15 * (Sum(Length, t.handlers) + 1) + 6 * maxConn + 16 + 2 * IdleEvents(Start(maxConn, timeout), es)
  {
    ReachableWork(maxConn, timeout, es, t);
  }

  // ---- Every execution can be brought to its end ----

  lemma StuckButForIdling(s: State, e: Event)
    requires Invariant(s) && Enabled(s, e) && Idle(s, e)
    ensures e.Spurious? || (e.Read? && Polling(s, e.w))
  {
    if e.Read? {
      EmptyMeansAllSeen(s, e.w);
    }
  }

  // t continues s: the same connections with the same scripts, and a log that begins with that of s.
  ghost predicate Continues(s: State, t: State) {
    && InBounds(s.cells, s.order) && InBounds(t.cells, t.order)
    && Log(s.cells, s.order) <= Log(t.cells, t.order)
    && |t.handlers| == |s.handlers|
    && forall i :: 0 <= i < |s.handlers| ==> t.handlers[i].prod.script == s.handlers[i].prod.script
  }

  lemma StepContinues(s: State, e: Event)
    requires Invariant(s) && |s.handlers| == s.maxConn && Enabled(s, e)
    ensures Continues(s, Apply(s, e))
  {
    ScriptsStay(s, e);
    LogGrows(s, e);
  }

  lemma {:induction false} SameLengths(hs: seq<Handler>, hs': seq<Handler>)
    requires |hs| == |hs'| && forall i :: 0 <= i < |hs| ==> hs[i].prod.script == hs'[i].prod.script
    ensures Sum(Length, hs) == Sum(Length, hs')
  {
    if hs != [] {
      SameLengths(hs[1..], hs'[1..]);
    }
  }

  // One event that is not idle, if the execution is not complete.
  lemma GoesOn(maxConn: nat, timeout: int, clients: seq<Client>, s: State) returns (t: State)
    requires Reachable(maxConn, timeout, clients, s) && |s.handlers| == maxConn && !Completed(s)
    ensures Reachable(maxConn, timeout, clients, t) && Continues(s, t)
    ensures Work(s) < Work(t) <= WorkLimit(t) == WorkLimit(s)
  {
    ReachableInvariant(maxConn, timeout, clients, s);
    GatewayDeadlockFree(maxConn, timeout, clients, s);
    var e :| Enabled(s, e) && !(e.Spurious? || (e.Read? && Polling(s, e.w)));
    if Idle(s, e) {
      StuckButForIdling(s, e);
    }
    StepWorks(s, e);
    StepContinues(s, e);
    assert !e.Accept?;
    t := Step(maxConn, timeout, clients, s, e);
    SameLengths(s.handlers, t.handlers);
    StepKeepsSetup(s, e);
    var es :| Execution(Next, Start(maxConn, timeout), es, t) && Accepts(es) == clients;
    ReachableWork(maxConn, timeout, es, t);
  }

  /** Once every connection has been accepted, each reachable state can be brought to the end of the
      program, with everything in the log still in its place. */
  lemma {:induction false} CanComplete(maxConn: nat, timeout: int, clients: seq<Client>, s: State) returns (t: State)
    requires Reachable(maxConn, timeout, clients, s) && |s.handlers| == maxConn
    ensures Reachable(maxConn, timeout, clients, t) && Completed(t) && Continues(s, t)
    decreases WorkLimit(s) - Work(s)
  {
    t := s;
    ReachableInvariant(maxConn, timeout, clients, s);
    if !Completed(s) {
      var u := GoesOn(maxConn, timeout, clients, s);
      t := CanComplete(maxConn, timeout, clients, u);
    }
  }
}
