/** The connection counters and the condition variable of connmgr_listen. */
module GatewayCounters {
  import opened Records
  import opened Gateway

  function GoneBit(h: Handler): nat {
    if h.gone then 1 else 0
  }

  function LiveBit(h: Handler): nat {
    if h.gone then 0 else 1
  }

  function SpawningBit(s: State): nat {
    if s.pc.Spawning? then 1 else 0
  }

  // Past the accept loop.
  predicate AllAccepted(pc: ListenerPc) {
    pc.Sleeping? || pc.Woken? || pc.Closing? || pc.Finished?
  }

  ghost predicate Counted(s: State) {
    && s.terms == Sum(GoneBit, s.handlers)
    && s.conns == |s.handlers| + SpawningBit(s)
    && s.conns <= s.maxConn
    && (s.pc.Accepting? || s.pc.Connected? ==> s.conns < s.maxConn)
    && !s.pc.Rejecting?
    && (AllAccepted(s.pc) ==> s.conns == s.maxConn)
    && (s.pc.Sleeping? ==> s.terms < s.maxConn)
    && (s.pc.Closing? || s.pc.Finished? ==> s.terms == s.maxConn)
  }

  // A thread that is gone has made its last insert; the marker is inserted after the wait.
  ghost predicate Ordered(s: State) {
    && (forall i :: 0 <= i < |s.handlers| && s.handlers[i].gone ==>
          s.handlers[i].prod.pending == None && s.handlers[i].prod.sent == |s.handlers[i].prod.script|)
    && s.marker.script == [END_MARKER]
    && (s.marker.pending.Some? ==> s.pc.Closing? && s.marker.sent == 0)
    && (s.marker.sent == if s.pc.Finished? then 1 else 0)
    && (s.lock.Held? ==> Exists(s, s.lock.who) && Prod(s, s.lock.who).pending.Some?)
  }

  lemma Bits()
    ensures forall h :: GoneBit(h) <= 1
    ensures forall h :: LiveBit(h) <= 1
  {
  }

  lemma {:induction false} LiveOrGone(hs: seq<Handler>)
    ensures Sum(GoneBit, hs) + Sum(LiveBit, hs) == |hs|
  {
    if hs != [] {
      LiveOrGone(hs[1..]);
    }
  }

  // An insert changes no thread's liveness.
  lemma {:induction false} SameGone(hs: seq<Handler>, hs': seq<Handler>)
    requires |hs| == |hs'| && forall i :: 0 <= i < |hs| ==> hs[i].gone == hs'[i].gone
    ensures Sum(GoneBit, hs) == Sum(GoneBit, hs')
  {
    if hs != [] {
      SameGone(hs[1..], hs'[1..]);
    }
  }

  lemma TerminateCounts(s: State, i: nat)
    requires Counted(s) && Enabled(s, Terminate(i))
    ensures Counted(Apply(s, Terminate(i)))
  {
    SumUpdate(GoneBit, s.handlers, i, s.handlers[i].(gone := true));
    Bits();
    SumFull(GoneBit, Apply(s, Terminate(i)).handlers);
  }

  lemma InsertKeepsCounts(s: State, e: Event)
    requires Counted(s) && Ordered(s) && Enabled(s, e) && (e.Fill? || e.Enter? || e.Advance?)
    ensures Counted(Apply(s, e))
  {
    var t := Apply(s, e);
    SameGone(s.handlers, t.handlers);
    assert t.conns == s.conns && t.terms == s.terms && (t.pc == s.pc || s.pc.Closing?);
  }

  lemma ListenerKeepsCounts(s: State, e: Event)
    requires Counted(s) && Enabled(s, e) && !e.Fill? && !e.Enter? && !e.Advance? && !e.Terminate?
    ensures Counted(Apply(s, e))
  {
    Bits();
    SumFull(GoneBit, s.handlers);
    if e.Spawn? {
      SumSnoc(GoneBit, s.handlers, HandlerThread(Producer(s.pc.script, 0, None), false));
    }
  }

  lemma StepKeepsCounts(s: State, e: Event)
    requires Counted(s) && Ordered(s) && Enabled(s, e)
    ensures Counted(Apply(s, e))
  {
    match e
    case Terminate(i) => TerminateCounts(s, i);
    case Fill(_) => InsertKeepsCounts(s, e);
    case Enter(_) => InsertKeepsCounts(s, e);
    case Advance(_) => InsertKeepsCounts(s, e);
    case _ => ListenerKeepsCounts(s, e);
  }

  lemma InsertKeepsOrdered(s: State, headFirst: bool)
    requires Ordered(s) && Enabled(s, Advance(headFirst))
    ensures Ordered(Apply(s, Advance(headFirst)))
  {
  }

  lemma StepKeepsOrdered(s: State, e: Event)
    requires Ordered(s) && Counted(s) && Enabled(s, e)
    ensures Ordered(Apply(s, e))
  {
    match e
    case Advance(headFirst) => InsertKeepsOrdered(s, headFirst);
    case _ =>
  }

  // Once the listener is past its wait every connection thread is gone.
  lemma AllGone(s: State)
    requires Counted(s) && (s.pc.Closing? || s.pc.Finished?)
    ensures |s.handlers| == s.maxConn && forall i :: 0 <= i < |s.handlers| ==> s.handlers[i].gone
  {
    Bits();
    SumFull(GoneBit, s.handlers);
    assert forall i :: 0 <= i < |s.handlers| && GoneBit(s.handlers[i]) == 1 ==> s.handlers[i].gone;
  }
}
