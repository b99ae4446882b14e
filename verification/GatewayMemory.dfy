/** The shared buffer stays a well-formed chain at every store of every insert. */
module GatewayMemory {
  import opened Records
  import opened Gateway

  function First(order: seq<nat>): Option<nat> {
    if order == [] then None else Some(order[0])
  }

  function Last(order: seq<nat>): Option<nat> {
    if order == [] then None else Some(order[|order| - 1])
  }

  function After(order: seq<nat>, k: nat): Option<nat> {
    if k + 1 < |order| then Some(order[k + 1]) else None
  }

  // The nodes reachable from head are order, each once.
  ghost predicate Chained(s: State) {
    && (forall i, j :: 0 <= i < j < |s.order| ==> s.order[i] != s.order[j])
    && InBounds(s.cells, s.order)
    && s.head == First(s.order)
    && (forall k {:trigger s.cells[s.order[k]].next} :: 0 <= k < |s.order| ==>
          s.cells[s.order[k]].next == After(s.order, k))
  }

  // Where tail points, by the stage of the insert in progress.
  ghost predicate TailFollows(s: State) {
    match s.lock
    case Free => s.tail == Last(s.order)
    case Held(_, n, stage) =>
      match stage
      case Entered => s.tail == Last(s.order)
      case TailSet => s.order == [] && s.tail == Some(n)
      case HeadSet => s.order == [n] && s.tail == None
      case Linked => |s.order| >= 2 && Last(s.order) == Some(n) && s.tail == Some(s.order[|s.order| - 2])
      case Complete => Last(s.order) == s.tail == Some(n)
  }

  // The thread's pending node is already reachable.
  predicate Published(s: State, a: Author) {
    s.lock.Held? && s.lock.who == a && (s.lock.stage.HeadSet? || s.lock.stage.Linked? || s.lock.stage.Complete?)
  }

  // A filled node carries the next record of its thread and is private until published.
  ghost predicate PendingOf(s: State, a: Author)
    requires Exists(s, a)
  {
    var p := Prod(s, a);
    && p.sent <= |p.script|
    && (p.pending.Some? ==>
          && Valid(s, p.pending) && p.sent < |p.script|
          && s.cells[p.pending.value].from == a
          && s.cells[p.pending.value].data == p.script[p.sent]
          && (!Published(s, a) ==> p.pending.value !in s.order && s.cells[p.pending.value].next == None))
  }

  ghost predicate LockOwned(s: State) {
    s.lock.Held? ==> Exists(s, s.lock.who) && Prod(s, s.lock.who).pending == Some(s.lock.node)
  }

  ghost predicate Memory(s: State) {
    && Chained(s) && TailFollows(s) && LockOwned(s)
    && forall a :: Exists(s, a) ==> PendingOf(s, a)
  }

  // t's memory is s's, up to private nodes.
  predicate SameBuffer(s: State, t: State) {
    t.cells == s.cells && t.order == s.order && t.head == s.head && t.tail == s.tail && t.lock == s.lock
  }

  lemma KeepsMemory(s: State, t: State)
    requires Memory(s) && SameBuffer(s, t)
    requires forall a :: Exists(s, a) ==> Exists(t, a) && Prod(t, a) == Prod(s, a)
    requires forall a :: Exists(t, a) && !Exists(s, a) ==> Prod(t, a).sent == 0 && Prod(t, a).pending == None
    ensures Memory(t)
  {
    forall a | Exists(t, a) ensures PendingOf(t, a) {
      if Exists(s, a) {
        assert PendingOf(s, a);
      }
    }
  }

  lemma FillKeepsMemory(s: State, a: Author)
    requires Memory(s) && Enabled(s, Fill(a))
    ensures Memory(Apply(s, Fill(a)))
  {
    var t := Apply(s, Fill(a));
    forall b | Exists(t, b) ensures PendingOf(t, b) {
      assert PendingOf(s, b);
    }
  }

  lemma EnterKeepsMemory(s: State, a: Author)
    requires Memory(s) && Enabled(s, Enter(a))
    ensures Memory(Apply(s, Enter(a)))
  {
    var t := Apply(s, Enter(a));
    forall b | Exists(t, b) ensures PendingOf(t, b) {
      assert PendingOf(s, b);
    }
  }

  // Publishing: the pending node of the lock holder becomes reachable.
  lemma PublishKeepsOthers(s: State, t: State, b: Author)
    requires Memory(s) && s.lock.Held? && !Published(s, s.lock.who) && Exists(s, b)
    requires t.handlers == s.handlers && t.marker == s.marker
    requires |t.cells| == |s.cells| && t.order == s.order + [s.lock.node]
    requires t.lock.Held? && t.lock.who == s.lock.who && Published(t, t.lock.who)
    requires forall n :: 0 <= n < |s.cells| ==>
      t.cells[n].from == s.cells[n].from && t.cells[n].data == s.cells[n].data
    requires forall n :: 0 <= n < |s.cells| && n !in s.order ==> t.cells[n] == s.cells[n]
    ensures PendingOf(t, b)
  {
    assert PendingOf(s, b) && PendingOf(s, s.lock.who);
  }

  lemma FirstHeadKeepsMemory(s: State)
    requires Memory(s) && Enabled(s, Advance(true)) && s.lock.stage.Entered? && s.tail == None
    ensures Memory(Apply(s, Advance(true)))
  {
    var t := Apply(s, Advance(true));
    assert PendingOf(s, s.lock.who);
    assert s.order == [] && t.order == [s.lock.node] && t.cells == s.cells;
    forall b | Exists(t, b) ensures PendingOf(t, b) {
      assert PendingOf(s, b);
    }
  }

  lemma FirstTailKeepsMemory(s: State)
    requires Memory(s) && Enabled(s, Advance(false)) && s.lock.stage.Entered? && s.tail == None
    ensures Memory(Apply(s, Advance(false)))
  {
    var t := Apply(s, Advance(false));
    forall b | Exists(t, b) ensures PendingOf(t, b) {
      assert PendingOf(s, b);
    }
  }

  lemma LinkKeepsMemory(s: State, headFirst: bool)
    requires Memory(s) && Enabled(s, Advance(headFirst)) && s.lock.stage.Entered? && s.tail != None
    ensures Memory(Apply(s, Advance(headFirst)))
  {
    var t := Apply(s, Advance(headFirst));
    var n, last := s.lock.node, |s.order| - 1;
    assert PendingOf(s, s.lock.who);
    assert s.tail == Some(s.order[last]);
    assert t.order == s.order + [n];
    forall k | 0 <= k < |t.order| ensures t.cells[t.order[k]].next == After(t.order, k) {
      if k < last {
        assert s.cells[s.order[k]].next == After(s.order, k);
        assert s.order[k] != s.order[last];
      }
    }
    forall b | Exists(t, b) ensures PendingOf(t, b) {
      PublishKeepsOthers(s, t, b);
    }
  }

  lemma LateHeadKeepsMemory(s: State, headFirst: bool)
    requires Memory(s) && Enabled(s, Advance(headFirst)) && s.lock.stage.TailSet?
    ensures Memory(Apply(s, Advance(headFirst)))
  {
    var t := Apply(s, Advance(headFirst));
    assert PendingOf(s, s.lock.who);
    assert s.order == [] && t.order == [s.lock.node] && t.cells == s.cells;
    forall b | Exists(t, b) ensures PendingOf(t, b) {
      assert PendingOf(s, b);
    }
  }

  lemma LateTailKeepsMemory(s: State, headFirst: bool)
    requires Memory(s) && Enabled(s, Advance(headFirst)) && s.lock.stage.HeadSet?
    ensures Memory(Apply(s, Advance(headFirst)))
  {
    var t := Apply(s, Advance(headFirst));
    forall b | Exists(t, b) ensures PendingOf(t, b) {
      assert PendingOf(s, b);
    }
  }

  lemma MoveTailKeepsMemory(s: State, headFirst: bool)
    requires Memory(s) && Enabled(s, Advance(headFirst)) && s.lock.stage.Linked?
    ensures Memory(Apply(s, Advance(headFirst)))
  {
    var t := Apply(s, Advance(headFirst));
    var k := |s.order| - 2;
    assert s.cells[s.order[k]].next == After(s.order, k);
    forall b | Exists(t, b) ensures PendingOf(t, b) {
      assert PendingOf(s, b);
    }
  }

  lemma UnlockKeepsMemory(s: State, headFirst: bool)
    requires Memory(s) && Enabled(s, Advance(headFirst)) && s.lock.stage.Complete?
    ensures Memory(Apply(s, Advance(headFirst)))
  {
    var t := Apply(s, Advance(headFirst));
    assert PendingOf(s, s.lock.who);
    forall b | Exists(t, b) ensures PendingOf(t, b) {
      assert PendingOf(s, b);
    }
  }

  lemma StepKeepsMemory(s: State, e: Event)
    requires Memory(s) && Enabled(s, e)
    ensures Memory(Apply(s, e))
  {
    match e
    case Fill(a) => FillKeepsMemory(s, a);
    case Enter(a) => EnterKeepsMemory(s, a);
    case Advance(headFirst) =>
      match s.lock.stage {
        case Entered =>
          if s.tail != None {
            LinkKeepsMemory(s, headFirst);
          } else if headFirst {
            FirstHeadKeepsMemory(s);
          } else {
            FirstTailKeepsMemory(s);
          }
        case TailSet => LateHeadKeepsMemory(s, headFirst);
        case HeadSet => LateTailKeepsMemory(s, headFirst);
        case Complete => UnlockKeepsMemory(s, headFirst);
        case Linked => MoveTailKeepsMemory(s, headFirst);
      }
    case _ => KeepsMemory(s, Apply(s, e));
  }

  /** Every pointer an insert follows is valid: the lock holder can always make its next store. */
  lemma InsertNeverFaults(s: State, headFirst: bool)
    requires Memory(s) && s.lock.Held?
    ensures Enabled(s, Advance(headFirst))
  {
  }
}
