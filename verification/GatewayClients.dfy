/** Which client each connection serves: the i-th connection inserts what the i-th accepted client sends. */
module GatewayClients {
  import opened Records
  import opened Executions
  import opened Gateway
  import opened GatewayCounters
  import ClientHandler

  // A client has been accepted and has no thread yet.
  predicate Arriving(pc: ListenerPc) {
    pc.Connected? || pc.Spawning?
  }

  ghost predicate Serves(clients: seq<Client>, s: State) {
    var n := |s.handlers|;
    && |clients| == (if Arriving(s.pc) then n + 1 else n)
    && (forall i :: 0 <= i < n ==> s.handlers[i].prod.script == ClientHandler.Sent(clients[i], s.timeout))
    && (Arriving(s.pc) ==> s.pc.script == ClientHandler.Sent(clients[n], s.timeout))
  }

  lemma ScriptsStay(s: State, e: Event)
    requires Enabled(s, e) && !e.Spawn?
    ensures |Apply(s, e).handlers| == |s.handlers|
    ensures forall i :: 0 <= i < |s.handlers| ==> Apply(s, e).handlers[i].prod.script == s.handlers[i].prod.script
  {
  }

  lemma ArrivalStays(s: State, e: Event)
    requires Counted(s) && Ordered(s) && Enabled(s, e) && !e.Accept? && !e.Spawn?
    ensures Arriving(Apply(s, e).pc) == Arriving(s.pc)
    ensures Arriving(s.pc) ==> Apply(s, e).pc.script == s.pc.script
  {
  }

  lemma StepServes(clients: seq<Client>, s: State, e: Event)
    requires Serves(clients, s) && Counted(s) && Ordered(s) && Enabled(s, e)
    ensures Serves(if e.Accept? then clients + [e.rounds] else clients, Apply(s, e))
  {
    if !e.Accept? && !e.Spawn? {
      ScriptsStay(s, e);
      ArrivalStays(s, e);
      assert Apply(s, e).timeout == s.timeout;
    }
  }

  /** Every execution: the connections insert what the clients send, one connection per client, in the
      order in which they are accepted. */
  lemma {:induction false} ExecutionServes(clients: seq<Client>, s: State, es: seq<Event>, t: State)
    requires Serves(clients, s) && Counted(s) && Ordered(s) && Execution(Next, s, es, t)
    ensures Serves(clients + Accepts(es), t)
    decreases |es|
  {
    if es == [] {
      assert clients + Accepts(es) == clients;
    } else {
      var e := es[0];
      StepKeepsCounts(s, e);
      StepKeepsOrdered(s, e);
      StepServes(clients, s, e);
      var more := if e.Accept? then clients + [e.rounds] else clients;
      assert more == clients + Accepted(e);
      Associative(clients, Accepted(e), Accepts(es[1..]));
      ExecutionServes(more, Apply(s, e), es[1..], t);
    }
  }
}
