/** Unlocked reads: whatever the inserts are doing, a reader walks exactly the records of the log. */
module GatewayReaders {
  import opened Records
  import opened Gateway
  import opened GatewayMemory

  // Records behind the reader's cursor: those used, and one more while it is being used.
  function Position(r: Reader): nat {
    |r.rows| + if r.pc.Deliver? || r.pc.Done? || r.pc.Reinserting? then 1 else 0
  }

  // The reader has used a prefix of log, and what it holds is the next record.
  ghost predicate Tracks(log: seq<Record>, order: seq<nat>, r: Reader)
    requires |log| == |order|
  {
    var k := Position(r);
    && k <= |log|
    && r.cursor == (if k == 0 then None else Some(order[k - 1]))
    && r.rows <= log && MarkerFree(r.rows)
    && match r.pc
       case CheckHead => true
       case CopyHead => k == 0 && log != []
       case StepHead(data) => k == 0 && log != [] && data == log[0]
       case CheckNext => k > 0
       case CopyNext => 0 < k < |log|
       case StepNext(data) => 0 < k < |log| && data == log[k]
       case Deliver(data) => data == log[k - 1]
       case Reinserting => false
       case Done => IsMarker(log[k - 1])
  }

  ghost predicate ReadersTrack(s: State) {
    && InBounds(s.cells, s.order) && s.eos == (if s.db.pc.Done? then 1 else 0)
    && Tracks(Log(s.cells, s.order), s.order, s.db) && Tracks(Log(s.cells, s.order), s.order, s.mgr)
  }

  // t's log is s's log, possibly with more behind it.
  predicate Extends(s: State, t: State) {
    && s.order <= t.order && |t.order| <= |s.order| + 1
    && |s.cells| <= |t.cells|
    && forall n :: 0 <= n < |s.cells| ==> t.cells[n].data == s.cells[n].data && t.cells[n].from == s.cells[n].from
  }

  lemma ExtendsLog(s: State, t: State)
    requires InBounds(s.cells, s.order) && InBounds(t.cells, t.order) && Extends(s, t)
    ensures Log(s.cells, s.order) <= Log(t.cells, t.order)
    ensures Authors(s.cells, s.order) <= Authors(t.cells, t.order)
  {
  }

  lemma StepExtends(s: State, e: Event)
    requires Memory(s) && Enabled(s, e)
    ensures Extends(s, Apply(s, e)) && InBounds(Apply(s, e).cells, Apply(s, e).order)
  {
    if e.Advance? {
      assert PendingOf(s, s.lock.who);
    }
  }

  /** Published nodes never change: every step leaves the log as it is or appends one record to it. */
  lemma LogGrows(s: State, e: Event)
    requires Memory(s) && Enabled(s, e)
    ensures var t := Apply(s, e);
      && InBounds(t.cells, t.order)
      && s.order <= t.order && |t.order| <= |s.order| + 1
      && Log(s.cells, s.order) <= Log(t.cells, t.order)
      && Authors(s.cells, s.order) <= Authors(t.cells, t.order)
  {
    StepExtends(s, e);
    ExtendsLog(s, Apply(s, e));
  }

  lemma TracksLater(log: seq<Record>, order: seq<nat>, log': seq<Record>, order': seq<nat>, r: Reader)
    requires |log| == |order| && |log'| == |order'| && log <= log' && order <= order'
    requires Tracks(log, order, r)
    ensures Tracks(log', order', r)
  {
  }

  // The link behind the cursor leads to the first unseen record, or nowhere if there is none.
  lemma NextUnseen(s: State, r: Reader)
    requires Memory(s) && Tracks(Log(s.cells, s.order), s.order, r)
    ensures var k := Position(r);
      if k == 0 then s.head == First(s.order)
      else Valid(s, r.cursor) && s.cells[r.cursor.value].next == if k < |s.order| then Some(s.order[k]) else None
  {
    var k := Position(r);
    if k > 0 {
      assert s.cells[s.order[k - 1]].next == After(s.order, k - 1);
    }
  }

  lemma UseKeepsTrack(log: seq<Record>, order: seq<nat>, r: Reader)
    requires |log| == |order| && Tracks(log, order, r) && r.pc.Deliver?
    ensures IsMarker(r.pc.data) ==> Tracks(log, order, r.(pc := Done))
    ensures !IsMarker(r.pc.data) ==> Tracks(log, order, r.(pc := CheckHead, rows := r.rows + [r.pc.data]))
  {
    var n := |r.rows|;
    assert log[..n + 1] == log[..n] + [log[n]];
  }

  // A load by a reader on the log, given where head and the cursor's link lead.
  lemma LoadKeepsTrack(s: State, w: Who, log: seq<Record>, order: seq<nat>)
    requires |log| == |order| && Tracks(log, order, TheReader(s, w))
    requires Enabled(s, Read(w)) && !TheReader(s, w).pc.Deliver?
    requires s.head == First(order)
    requires forall k :: 0 <= k < |order| ==> order[k] < |s.cells| && s.cells[order[k]].data == log[k]
    requires var r := TheReader(s, w);
      var k := Position(r);
      k > 0 ==> Valid(s, r.cursor) && s.cells[r.cursor.value].next == if k < |order| then Some(order[k]) else None
    ensures Tracks(log, order, NextReader(s, w))
  {
  }

  lemma ReadKeepsTrack(s: State, w: Who)
    requires Memory(s) && ReadersTrack(s) && Enabled(s, Read(w))
    ensures Tracks(Log(s.cells, s.order), s.order, NextReader(s, w))
  {
    var r, log := TheReader(s, w), Log(s.cells, s.order);
    if r.pc.Deliver? {
      UseKeepsTrack(log, s.order, r);
    } else {
      NextUnseen(s, r);
      LoadKeepsTrack(s, w, log, s.order);
    }
  }

  lemma ReadStepKeepsTrack(s: State, w: Who)
    requires Memory(s) && ReadersTrack(s) && Enabled(s, Read(w))
    ensures ReadersTrack(Apply(s, Read(w)))
  {
    ReadKeepsTrack(s, w);
  }

  lemma OnlyReadsMoveReaders(s: State, e: Event)
    requires Enabled(s, e) && !e.Read?
    ensures Apply(s, e).db == s.db && Apply(s, e).mgr == s.mgr && Apply(s, e).eos == s.eos
  {
  }

  lemma StepKeepsTrack(s: State, e: Event)
    requires Memory(s) && ReadersTrack(s) && Enabled(s, e)
    ensures ReadersTrack(Apply(s, e))
  {
    match e
    case Read(w) => ReadStepKeepsTrack(s, w);
    case _ =>
      var t := Apply(s, e);
      LogGrows(s, e);
      OnlyReadsMoveReaders(s, e);
      var log, log' := Log(s.cells, s.order), Log(t.cells, t.order);
      TracksLater(log, s.order, log', t.order, s.db);
      TracksLater(log, s.order, log', t.order, s.mgr);
  }

  // Every pointer a reader follows is valid: a reader that has not exited can always go on.
  lemma ReadNeverFaults(s: State, w: Who)
    requires Memory(s) && ReadersTrack(s) && !TheReader(s, w).pc.Done?
    ensures Enabled(s, Read(w))
  {
    NextUnseen(s, TheReader(s, w));
  }

  // Where sbuffer_read returns SBUFFER_EMPTY, the reader had seen every reachable record.
  lemma EmptyMeansAllSeen(s: State, w: Who)
    requires Memory(s) && ReadersTrack(s) && Enabled(s, Read(w))
    requires TheReader(s, w).pc.CheckHead? || TheReader(s, w).pc.CheckNext?
    requires NextReader(s, w).pc.CheckHead?
    ensures TheReader(s, w).rows == Log(s.cells, s.order)
  {
    NextUnseen(s, TheReader(s, w));
  }
}
