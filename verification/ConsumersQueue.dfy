/** The heap queue in the concurrent program: driven by an execution's events, it is the machine's queue. */
module ConsumersQueue {
  import opened Records
  import opened Executions
  import opened Consumers
  import SharedBuffer

  predicate Signals(e: Event) {
    e.Produce? || e.Reinsert?
  }

  // The thread of event e calls the queue's operation, if e is one.
  method Act(q: SharedBuffer.Buffer, s: State, e: Event) returns (answer: Option<Record>)
    requires q.Valid() && q.contents == s.queue && Enabled(s, e)
    modifies q, q.live
    ensures q.Valid() && fresh(q.live - old(q.live))
    ensures q.contents == Apply(s, e).queue
    ensures e.Take? ==> answer.Some? && Apply(s, e).readers[e.i] == Holding(answer.value)
    ensures e.Block? ==> answer == None && Apply(s, e).readers[e.i] == Waiting
    ensures q.signals == old(q.signals) + if Signals(e) then 1 else 0
  {
    answer := None;
    match e
    case Produce(rec, _) => q.Insert(rec);
    case Take(_) => answer := q.Remove();
    case Block(_) => answer := q.Remove();
    case Reinsert(i, _) => q.Insert(s.readers[i].rec);
    case _ =>
  }

  /** Any execution, carried out on the heap: the queue holds at the end what the machine's queue holds,
      and pthread_cond_signal has been called once per insert. */
  method Drive(input: seq<Record>, n: nat, es: seq<Event>, ghost t: State) returns (q: SharedBuffer.Buffer)
    requires Execution(Next, Start(input, n), es, t)
    ensures fresh(q) && q.Valid() && q.contents == t.queue
    ensures q.signals == |Inserts(es)|
  {
    q := new SharedBuffer.Buffer();
    var s := Start(input, n);
    assert es[0..] == es && es[..0] == [];
    for k := 0 to |es|
      invariant fresh(q) && fresh(q.live) && q.Valid()
      invariant q.contents == s.queue && Execution(Next, s, es[k..], t)
      invariant q.signals == |Inserts(es[..k])|
    {
      Continue(s, es, k, t);
      var _ := Act(q, s, es[k]);
      s := Apply(s, es[k]);
    }
    assert es[..|es|] == es;
  }

  lemma Continue(s: State, es: seq<Event>, k: nat, t: State)
    requires k < |es| && Execution(Next, s, es[k..], t)
    ensures Enabled(s, es[k]) && Execution(Next, Apply(s, es[k]), es[k + 1..], t)
    ensures |Inserts(es[..k + 1])| == |Inserts(es[..k])| + if Signals(es[k]) then 1 else 0
  {
    assert es[k..][0] == es[k] && es[k..][1..] == es[k + 1..];
    assert es[..k + 1][..k] == es[..k];
  }

  function Inserts(es: seq<Event>): seq<Event> {
    if es == [] then []
    else Inserts(es[..|es| - 1]) + if Signals(es[|es| - 1]) then [es[|es| - 1]] else []
  }
}
