/**
 The competing-consumers program: one writer thread, N reader threads and a blocking queue.

 A critical section of the queue (sbuffer_insert, one pass through sbuffer_remove) is one
 event, because the queue's mutex is held throughout; everything the threads do outside it,
 in particular the unlocked eos_count++, its test and the reinsertion, is split into one event
 per memory access. An execution is an arbitrary sequence of enabled events.
 */
module Consumers {
  import opened Records
  import opened Executions

  // Where one reader thread stands in its loop.
  datatype Reader =
    | Removing                          // about to lock the queue and test its head
    | Waiting                           // blocked in pthread_cond_wait
    | Woken                             // released from the wait, about to re-test the head
    | Holding(rec: Record)              // sbuffer_remove returned rec
    | Loaded(rec: Record, count: nat)   // eos_count++ has read eos_count
    | Stored(rec: Record)               // eos_count++ has written eos_count
    | Reinserting(rec: Record)          // the test eos_count < NUM_READERS succeeded
    | Exited

  // A record together with the reader that removed it.
  datatype Tagged = Tagged(who: nat, rec: Record)

  datatype State = State(
    input: seq<Record>,     // the sensor file
    next: nat,              // inserts done by the writer; |input| + 1 once the marker is in
    queue: seq<Record>,
    readers: seq<Reader>,
    eos: nat,               // the static eos_count
    rows: seq<Tagged>,      // the output file, each row with the reader that wrote it
    taken: seq<Tagged>)     // history: readings in the order they left the queue

  // The number w names the waiter that pthread_cond_signal releases, if any waits.
  datatype Event =
    | Produce(rec: Record, w: nat)
    | Take(i: nat)
    | Block(i: nat)
    | Spurious(i: nat)
    | Write(i: nat)
    | Load(i: nat)
    | Store(i: nat)
    | Test(i: nat)
    | Reinsert(i: nat, w: nat)

  predicate AnyWaiting(rs: seq<Reader>) {
    exists i :: 0 <= i < |rs| && rs[i].Waiting?
  }

  // pthread_cond_signal releases a waiter whenever there is one.
  predicate MaySignal(rs: seq<Reader>, w: nat) {
    AnyWaiting(rs) ==> w < |rs| && rs[w].Waiting?
  }

  function Signal(rs: seq<Reader>, w: nat): seq<Reader> {
    if w < |rs| && rs[w].Waiting? then rs[w := Woken] else rs
  }

  predicate AtQueue(r: Reader) {
    r.Removing? || r.Woken?
  }

  predicate Enabled(s: State, e: Event) {
    match e
    case Produce(rec, w) =>
      && s.next <= |s.input|
      && (if s.next < |s.input| then rec == s.input[s.next] else IsMarker(rec))
      && MaySignal(s.readers, w)
    case Take(i) => i < |s.readers| && AtQueue(s.readers[i]) && s.queue != []
    case Block(i) => i < |s.readers| && AtQueue(s.readers[i]) && s.queue == []
    case Spurious(i) => i < |s.readers| && s.readers[i].Waiting?
    case Write(i) => i < |s.readers| && s.readers[i].Holding? && !IsMarker(s.readers[i].rec)
    case Load(i) => i < |s.readers| && s.readers[i].Holding? && IsMarker(s.readers[i].rec)
    case Store(i) => i < |s.readers| && s.readers[i].Loaded?
    case Test(i) => i < |s.readers| && s.readers[i].Stored?
    case Reinsert(i, w) => i < |s.readers| && s.readers[i].Reinserting? && MaySignal(s.readers, w)
  }

  function Apply(s: State, e: Event): State
    requires Enabled(s, e)
  {
    match e
    case Produce(rec, w) =>
      s.(next := s.next + 1, queue := s.queue + [rec], readers := Signal(s.readers, w))
    case Take(i) =>
      var rec := s.queue[0];
      s.(queue := s.queue[1..], readers := s.readers[i := Holding(rec)],
         taken := if IsMarker(rec) then s.taken else s.taken + [Tagged(i, rec)])
    case Block(i) => s.(readers := s.readers[i := Waiting])
    case Spurious(i) => s.(readers := s.readers[i := Woken])
    case Write(i) =>
      s.(rows := s.rows + [Tagged(i, s.readers[i].rec)], readers := s.readers[i := Removing])
    case Load(i) => s.(readers := s.readers[i := Loaded(s.readers[i].rec, s.eos)])
    case Store(i) =>
      s.(eos := s.readers[i].count + 1, readers := s.readers[i := Stored(s.readers[i].rec)])
    case Test(i) =>
      s.(readers := s.readers[i := if s.eos < |s.readers| then Reinserting(s.readers[i].rec) else Exited])
    case Reinsert(i, w) =>
      s.(queue := s.queue + [s.readers[i].rec], readers := Signal(s.readers[i := Exited], w))
  }

  function Start(input: seq<Record>, n: nat): State {
    State(input, 0, [], seq(n, _ => Removing), 0, [], [])
  }

  // The state after an event, where the event can happen.
  function Next(s: State, e: Event): Option<State> {
    if Enabled(s, e) then Some(Apply(s, e)) else None
  }

  // t occurs in some execution of the program on input with n readers.
  ghost predicate Reachable(input: seq<Record>, n: nat, t: State) {
    exists es :: Execution(Next, Start(input, n), es, t)
  }

  lemma Begin(input: seq<Record>, n: nat) returns (s: State)
    ensures Reachable(input, n, s) && s == Start(input, n)
  {
    s := Start(input, n);
    assert Execution(Next, s, [], s);
  }

  // One more step of a reachable state.
  lemma Step(input: seq<Record>, n: nat, s: State, e: Event) returns (t: State)
    requires Reachable(input, n, s) && Enabled(s, e)
    ensures Reachable(input, n, t) && t == Apply(s, e)
  {
    t := Apply(s, e);
    var es :| Execution(Next, Start(input, n), es, s);
    Snoc(Next, Start(input, n), es, s, e);
  }

  // Every pthread_join in main has returned.
  predicate Finished(s: State) {
    s.next == |s.input| + 1 && forall i :: 0 <= i < |s.readers| ==> s.readers[i].Exited?
  }

  function Recs(ts: seq<Tagged>): seq<Record> {
    seq(|ts|, k requires 0 <= k < |ts| => ts[k].rec)
  }

  // The records that carry reader i's tag, in order.
  function Mine(ts: seq<Tagged>, i: nat): seq<Record> {
    if ts == [] then [] else (if ts[0].who == i then [ts[0].rec] else []) + Mine(ts[1..], i)
  }

  // The reading a reader has removed and not yet written.
  function Held(r: Reader): seq<Record> {
    if r.Holding? && !IsMarker(r.rec) then [r.rec] else []
  }

  function HeldBag(rs: seq<Reader>): multiset<Record> {
    if rs == [] then multiset{} else multiset(Held(rs[0])) + HeldBag(rs[1..])
  }

  // A reader has the marker in its hands.
  function HasMarker(r: Reader): nat {
    match r
    case Holding(rec) => if IsMarker(rec) then 1 else 0
    case Loaded(_, _) => 1
    case Stored(_) => 1
    case Reinserting(_) => 1
    case _ => 0
  }

  // A reader has finished its eos_count++.
  function PastIncrement(r: Reader): nat {
    if r.Stored? || r.Reinserting? || r.Exited? then 1 else 0
  }

  function IsWoken(r: Reader): nat {
    if r.Woken? then 1 else 0
  }

  function MarkerBit(r: Record): nat {
    if IsMarker(r) then 1 else 0
  }

  // Markers in the queue or in a reader's hands.
  function Tokens(s: State): nat {
    Sum(MarkerBit, s.queue) + Sum(HasMarker, s.readers)
  }
}
