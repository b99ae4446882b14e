/**
 The gateway as a whole: client handlers and the listener append to the shared buffer, the database
 thread and the data manager walk it with unlocked reads.

 sbuffer_insert is split into one event per write to shared memory, sbuffer_read into one event per
 load, interleaved arbitrarily under sequential consistency. The critical sections of conn_mutex are
 one event each. An execution is an arbitrary sequence of enabled events.
 */
module Gateway {
  import opened Records
  import opened Executions
  import ClientHandler

  // What one client makes its receives return.
  type Client = seq<ClientHandler.Round>

  // Who inserts: the i-th accepted connection, or the listener with its end marker.
  datatype Author = Handler(i: nat) | Listener

  datatype Cell = Cell(data: Record, from: Author, next: Option<nat>)

  // How far the thread inside sbuffer_insert's critical section has come.
  datatype Stage =
    | Entered    // holds the mutex
    | TailSet    // empty buffer, tail written first
    | HeadSet    // empty buffer, head written first
    | Linked     // tail->next written
    | Complete   // about to unlock

  datatype Lock = Free | Held(who: Author, node: nat, stage: Stage)

  // The records a thread inserts, how many inserts it has completed, and its filled, unfinished node.
  datatype Producer = Producer(script: seq<Record>, sent: nat, pending: Option<nat>)

  datatype Handler = HandlerThread(prod: Producer, gone: bool)

  datatype ListenerPc =
    | AtLoop                          // about to test conn_counter < MAX_CONN under the mutex
    | Accepting
    | Connected(script: seq<Record>)  // a client is there, not counted yet
    | Spawning(script: seq<Record>)   // counted, its thread not created yet
    | Rejecting                       // the else branch of the second test
    | Sleeping                        // in pthread_cond_wait
    | Woken                           // about to re-test conn_terminations
    | Closing                         // past the wait; only the end marker is left to insert
    | Finished

  datatype ReaderPc =
    | CheckHead                // about to load buffer->head
    | CopyHead                 // head was not null and the cursor is
    | StepHead(data: Record)   // copied the first record
    | CheckNext                // about to load (*node)->next
    | CopyNext
    | StepNext(data: Record)
    | Deliver(data: Record)    // sbuffer_read returned data
    | Reinserting              // open_db's test eos_count < 1 succeeded
    | Done

  datatype Reader = Reader(pc: ReaderPc, cursor: Option<nat>, rows: seq<Record>)

  datatype Who = Database | Manager

  datatype State = State(
    maxConn: nat, timeout: int,
    cells: seq<Cell>,            // every node malloc'ed so far, by address
    head: Option<nat>, tail: Option<nat>,
    lock: Lock,
    order: seq<nat>,             // history: addresses in the order they became reachable
    handlers: seq<Handler>,
    marker: Producer,            // the listener's insert of the end marker
    pc: ListenerPc,
    conns: nat, terms: nat,      // conn_counter, conn_terminations
    db: Reader, mgr: Reader,
    eos: int)                    // open_db's static eos_count

  datatype Event =
    | Fill(a: Author)
    | Enter(a: Author)
    | Advance(headFirst: bool)   // headFirst: which store of head = tail = dummy comes first
    | Terminate(i: nat)
    | Loop
    | Accept(rounds: Client)
    | Count
    | Spawn
    | Reject
    | Spurious
    | Recheck
    | Read(w: Who)

  predicate Exists(s: State, a: Author) {
    a.Handler? ==> a.i < |s.handlers|
  }

  function Prod(s: State, a: Author): Producer
    requires Exists(s, a)
  {
    match a
    case Handler(i) => s.handlers[i].prod
    case Listener => s.marker
  }

  function SetProd(s: State, a: Author, p: Producer): State
    requires Exists(s, a)
  {
    match a
    case Handler(i) => s.(handlers := s.handlers[i := s.handlers[i].(prod := p)])
    case Listener => s.(marker := p)
  }

  function TheReader(s: State, w: Who): Reader {
    match w
    case Database => s.db
    case Manager => s.mgr
  }

  function SetReader(s: State, w: Who, r: Reader): State {
    match w
    case Database => s.(db := r)
    case Manager => s.(mgr := r)
  }

  // p is the address of an allocated node.
  predicate Valid(s: State, p: Option<nat>) {
    p.Some? && p.value < |s.cells|
  }

  // A thread at the start of an insert. The listener gets there once the wait loop is behind it.
  predicate MayFill(s: State, a: Author) {
    && Exists(s, a)
    && Prod(s, a).pending == None && Prod(s, a).sent < |Prod(s, a).script|
    && (a.Listener? ==> s.pc == Closing)
  }

  predicate Enabled(s: State, e: Event) {
    match e
    case Fill(a) => MayFill(s, a)
    case Enter(a) => Exists(s, a) && Prod(s, a).pending.Some? && s.lock.Free?
    case Advance(_) =>
      && s.lock.Held? && Exists(s, s.lock.who)
      && (s.lock.stage.Entered? ==> s.tail == None || Valid(s, s.tail))
      && (s.lock.stage.Linked? ==> Valid(s, s.tail))
    case Terminate(i) =>
      && i < |s.handlers| && !s.handlers[i].gone
      && s.handlers[i].prod.pending == None && s.handlers[i].prod.sent == |s.handlers[i].prod.script|
    case Loop => s.pc.AtLoop?
    case Accept(_) => s.pc.Accepting?
    case Count => s.pc.Connected?
    case Spawn => s.pc.Spawning?
    case Reject => s.pc.Rejecting?
    case Spurious => s.pc.Sleeping?
    case Recheck => s.pc.Woken?
    case Read(w) =>
      match TheReader(s, w).pc
      case CheckHead => true
      case CopyHead => Valid(s, s.head)
      case StepHead(_) => Valid(s, s.head)
      case CheckNext => Valid(s, TheReader(s, w).cursor)
      case CopyNext =>
        Valid(s, TheReader(s, w).cursor) && Valid(s, s.cells[TheReader(s, w).cursor.value].next)
      case StepNext(_) => Valid(s, TheReader(s, w).cursor)
      case Deliver(_) => true
      case Reinserting => false
      case Done => false
  }

  function FillNode(s: State, a: Author): State
    requires MayFill(s, a)
  {
    var p := Prod(s, a);
    SetProd(s, a, p.(pending := Some(|s.cells|))).(cells := s.cells + [Cell(p.script[p.sent], a, None)])
  }

  // The next store of the thread that holds the buffer's mutex.
  function AdvanceInsert(s: State, headFirst: bool): State
    requires Enabled(s, Advance(headFirst))
  {
    var Held(a, n, stage) := s.lock;
    match stage
    case Entered =>
      if s.tail == None && headFirst then
        s.(head := Some(n), order := s.order + [n], lock := Held(a, n, HeadSet))
      else if s.tail == None then
        s.(tail := Some(n), lock := Held(a, n, TailSet))
      else
        var t := s.tail.value;
        s.(cells := s.cells[t := s.cells[t].(next := Some(n))], order := s.order + [n], lock := Held(a, n, Linked))
    case TailSet => s.(head := Some(n), order := s.order + [n], lock := Held(a, n, Complete))
    case HeadSet => s.(tail := Some(n), lock := Held(a, n, Complete))
    case Linked => s.(tail := s.cells[s.tail.value].next, lock := Held(a, n, Complete))
    case Complete =>
      var p := Prod(s, a);
      SetProd(s, a, p.(pending := None, sent := p.sent + 1))
        .(lock := Free, pc := if a.Listener? then Finished else s.pc)
  }

  // The reader after its next load, or after the use of a record that sbuffer_read returned.
  function NextReader(s: State, w: Who): Reader
    requires Enabled(s, Read(w))
  {
    var r := TheReader(s, w);
    match r.pc
    case CheckHead => r.(pc := if s.head == None then CheckHead else if r.cursor == None then CopyHead else CheckNext)
    case CopyHead => r.(pc := StepHead(s.cells[s.head.value].data))
    case StepHead(data) => r.(pc := Deliver(data), cursor := s.head)
    case CheckNext => r.(pc := if s.cells[r.cursor.value].next == None then CheckHead else CopyNext)
    case CopyNext => r.(pc := StepNext(s.cells[s.cells[r.cursor.value].next.value].data))
    case StepNext(data) => r.(pc := Deliver(data), cursor := s.cells[r.cursor.value].next)
    case Deliver(data) =>
      if !IsMarker(data) then r.(pc := CheckHead, rows := r.rows + [data])
      else if w.Database? && s.eos + 1 < 1 then r.(pc := Reinserting)
      else r.(pc := Done)
  }

  // open_db counts the markers it meets; the data manager does not.
  function ReadStep(s: State, w: Who): State
    requires Enabled(s, Read(w))
  {
    var r := TheReader(s, w);
    var counts := w.Database? && r.pc.Deliver? && IsMarker(r.pc.data);
    SetReader(s, w, NextReader(s, w)).(eos := if counts then s.eos + 1 else s.eos)
  }

  function Apply(s: State, e: Event): State
    requires Enabled(s, e)
  {
    match e
    case Fill(a) => FillNode(s, a)
    case Enter(a) => s.(lock := Held(a, Prod(s, a).pending.value, Entered))
    case Advance(headFirst) => AdvanceInsert(s, headFirst)
    case Terminate(i) =>
      s.(handlers := s.handlers[i := s.handlers[i].(gone := true)], terms := s.terms + 1,
         pc := if s.terms + 1 == s.conns && s.pc.Sleeping? then Woken else s.pc)
    case Loop =>
      s.(pc := if s.conns < s.maxConn then Accepting else if s.terms < s.maxConn then Sleeping else Closing)
    case Accept(rounds) => s.(pc := Connected(ClientHandler.Sent(rounds, s.timeout)))
    case Count =>
      if s.conns < s.maxConn then s.(conns := s.conns + 1, pc := Spawning(s.pc.script)) else s.(pc := Rejecting)
    case Spawn =>
      s.(handlers := s.handlers + [HandlerThread(Producer(s.pc.script, 0, None), false)], pc := AtLoop)
    case Reject => s.(pc := AtLoop)
    case Spurious => s.(pc := Woken)
    case Recheck => s.(pc := if s.terms < s.maxConn then Sleeping else Closing)
    case Read(w) => ReadStep(s, w)
  }

  function Start(maxConn: nat, timeout: int): State {
    State(maxConn, timeout, [], None, None, Free, [], [], Producer([END_MARKER], 0, None), AtLoop, 0, 0,
          Reader(CheckHead, None, []), Reader(CheckHead, None, []), 0)
  }

  // The state after an event, where the event can happen.
  function Next(s: State, e: Event): Option<State> {
    if Enabled(s, e) then Some(Apply(s, e)) else None
  }

  function Accepted(e: Event): seq<Client> {
    if e.Accept? then [e.rounds] else []
  }

  // The clients an execution accepts, in order.
  function Accepts(es: seq<Event>): seq<Client> {
    if es == [] then [] else Accepted(es[0]) + Accepts(es[1..])
  }

  // t occurs in some execution, after the clients have been accepted.
  ghost predicate Reachable(maxConn: nat, timeout: int, clients: seq<Client>, t: State) {
    exists es :: Execution(Next, Start(maxConn, timeout), es, t) && Accepts(es) == clients
  }

  lemma {:induction false} AcceptsSnoc(es: seq<Event>, e: Event)
    ensures Accepts(es + [e]) == Accepts(es) + Accepted(e)
  {
    if es == [] {
      assert es + [e] == [e] && [e][1..] == [];
      assert Accepts([e]) == Accepted(e) + [];
    } else {
      assert (es + [e])[1..] == es[1..] + [e];
      AcceptsSnoc(es[1..], e);
      Associative(Accepted(es[0]), Accepts(es[1..]), Accepted(e));
    }
  }

  lemma Begin(maxConn: nat, timeout: int) returns (s: State)
    ensures Reachable(maxConn, timeout, [], s) && s == Start(maxConn, timeout)
  {
    s := Start(maxConn, timeout);
    assert Execution(Next, s, [], s) && Accepts([]) == [];
  }

  // One more step of a reachable state.
  lemma Step(maxConn: nat, timeout: int, clients: seq<Client>, s: State, e: Event) returns (t: State)
    requires Reachable(maxConn, timeout, clients, s) && Enabled(s, e)
    ensures Reachable(maxConn, timeout, if e.Accept? then clients + [e.rounds] else clients, t)
    ensures t == Apply(s, e)
  {
    t := Apply(s, e);
    var es :| Execution(Next, Start(maxConn, timeout), es, s) && Accepts(es) == clients;
    Snoc(Next, Start(maxConn, timeout), es, s, e);
    AcceptsSnoc(es, e);
    assert !e.Accept? ==> clients + Accepted(e) == clients;
  }

  // main has joined the listener and both readers; every connection thread is through.
  predicate Completed(s: State) {
    && s.pc.Finished? && s.db.pc.Done? && s.mgr.pc.Done?
    && forall i :: 0 <= i < |s.handlers| ==> s.handlers[i].gone
  }

  predicate InBounds(cells: seq<Cell>, order: seq<nat>) {
    forall k :: 0 <= k < |order| ==> order[k] < |cells|
  }

  // The records in the buffer, in the order readers meet them.
  function Log(cells: seq<Cell>, order: seq<nat>): seq<Record>
    requires InBounds(cells, order)
  {
    seq(|order|, k requires 0 <= k < |order| => cells[order[k]].data)
  }

  function Authors(cells: seq<Cell>, order: seq<nat>): seq<Author>
    requires InBounds(cells, order)
  {
    seq(|order|, k requires 0 <= k < |order| => cells[order[k]].from)
  }

  // The records of log whose author is a, in order.
  function By(log: seq<Record>, authors: seq<Author>, a: Author): seq<Record>
    requires |log| == |authors|
  {
    if log == [] then []
    else
      var n := |log| - 1;
      By(log[..n], authors[..n], a) + if authors[n] == a then [log[n]] else []
  }
}
