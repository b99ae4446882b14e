/**
 The end-of-stream protocol. No lock protects eos_count: what protects it is that a single marker
 circulates. The proof follows the marker through four phases.
 */
module ConsumersToken {
  import opened Records
  import opened Executions
  import opened Consumers
  import opened ConsumersDelivery

  ghost predicate NoHolder(s: State) {
    forall i :: 0 <= i < |s.readers| ==> HasMarker(s.readers[i]) == 0
  }

  ghost predicate OnlyHolder(s: State, i: nat) {
    && i < |s.readers|
    && HasMarker(s.readers[i]) == 1
    && forall j :: 0 <= j < |s.readers| && j != i ==> HasMarker(s.readers[j]) == 0
  }

  // The writer has not inserted the marker yet.
  ghost predicate Streaming(s: State) {
    s.next <= |s.input| && MarkerFree(s.queue) && NoHolder(s) && s.eos == 0
  }

  // A single marker, behind every reading.
  ghost predicate MarkerEnds(q: seq<Record>) {
    q != [] && IsMarker(q[|q| - 1]) && MarkerFree(q[..|q| - 1])
  }

  // The marker is in the queue, behind every reading.
  ghost predicate Queued(s: State) {
    && s.next == |s.input| + 1
    && MarkerEnds(s.queue)
    && NoHolder(s)
    && s.eos < |s.readers|
  }

  // Reader i holds the marker; the queue is empty.
  ghost predicate HeldBy(s: State, i: nat) {
    && s.next == |s.input| + 1
    && OnlyHolder(s, i)
    && s.queue == []
    && (s.readers[i].Loaded? ==> s.readers[i].count == s.eos)
    && (s.readers[i].Reinserting? ==> s.eos < |s.readers|)
  }

  // The last reader has dropped the marker.
  ghost predicate Drained(s: State) {
    s.next == |s.input| + 1 && s.queue == [] && NoHolder(s) && s.eos == |s.readers|
  }

  ghost predicate InPhase(s: State) {
    Streaming(s) || Queued(s) || Drained(s) || exists i: nat :: HeldBy(s, i)
  }

  // eos_count is the number of readers past their increment.
  ghost predicate Counted(s: State) {
    s.eos == Sum(PastIncrement, s.readers)
  }

  lemma PastBits()
    ensures forall r :: PastIncrement(r) <= 1
  {
  }

  // ---- Every step stays in the protocol ----

  lemma SignalKeepsHands(rs: seq<Reader>, w: nat)
    ensures |Signal(rs, w)| == |rs|
    ensures forall i :: 0 <= i < |rs| ==> HasMarker(Signal(rs, w)[i]) == HasMarker(rs[i])
    ensures forall i :: 0 <= i < |rs| && !rs[i].Waiting? ==> Signal(rs, w)[i] == rs[i]
    ensures Sum(PastIncrement, Signal(rs, w)) == Sum(PastIncrement, rs)
  {
    if w < |rs| && rs[w].Waiting? {
      SumUpdate(PastIncrement, rs, w, Woken);
    }
  }

  lemma MarkerStaysLast(q: seq<Record>)
    requires MarkerEnds(q) && |q| > 1
    ensures MarkerEnds(q[1..]) && !IsMarker(q[0])
  {
    var ahead := q[..|q| - 1];
    assert q[0] == ahead[0];
    assert q[1..][..|q| - 2] == ahead[1..];
    assert forall k :: 0 <= k < |ahead[1..]| ==> ahead[1..][k] == ahead[k + 1];
  }

  lemma StreamingStep(s: State, e: Event)
    requires Streaming(s) && MarkerFree(s.input) && |s.readers| > 0 && Enabled(s, e)
    ensures Streaming(Apply(s, e)) || Queued(Apply(s, e))
  {
    var t := Apply(s, e);
    if e.Produce? {
      SignalKeepsHands(s.readers, e.w);
      assert t.queue[..|t.queue| - 1] == s.queue;
      assert t.queue[|t.queue| - 1] == e.rec;
    }
  }

  lemma QueuedStep(s: State, e: Event)
    requires Queued(s) && Enabled(s, e)
    ensures Queued(Apply(s, e)) || exists i: nat :: HeldBy(Apply(s, e), i)
  {
    var t := Apply(s, e);
    if e.Take? {
      if |s.queue| == 1 {
        assert HeldBy(t, e.i);
      } else {
        MarkerStaysLast(s.queue);
      }
    }
  }

  lemma HeldTest(s: State, i: nat)
    requires HeldBy(s, i) && Counted(s) && Enabled(s, Test(i))
    ensures HeldBy(Apply(s, Test(i)), i) || Drained(Apply(s, Test(i)))
  {
    if s.eos >= |s.readers| {
      PastBits();
      SumFull(PastIncrement, s.readers);
      assert Drained(Apply(s, Test(i)));
    }
  }

  lemma HeldReinsert(s: State, i: nat, w: nat)
    requires HeldBy(s, i) && HandsAreMarkers(s) && Enabled(s, Reinsert(i, w))
    ensures Queued(Apply(s, Reinsert(i, w)))
  {
    var t := Apply(s, Reinsert(i, w));
    var us := s.readers[i := Exited];
    SignalKeepsHands(us, w);
    assert t.readers == Signal(us, w);
    assert NoHolder(t) by {
      assert forall j :: 0 <= j < |us| ==> HasMarker(us[j]) == 0;
    }
    assert t.queue == [s.readers[i].rec];
    LoneMarker(s.readers[i].rec);
  }

  lemma LoneMarker(r: Record)
    requires IsMarker(r)
    ensures MarkerEnds([r])
  {
    assert [r][..0] == [];
  }

  // While one reader holds the marker the others only sleep, wake up, or write their last reading.
  lemma HeldStep(s: State, i: nat, e: Event)
    requires HeldBy(s, i) && Enabled(s, e) && !e.Test? && !e.Reinsert?
    ensures HeldBy(Apply(s, e), i)
  {
  }

  lemma DrainedStep(s: State, e: Event)
    requires Drained(s) && Enabled(s, e)
    ensures Drained(Apply(s, e))
  {
  }

  lemma StepKeepsCount(s: State, e: Event)
    requires InPhase(s) && Counted(s) && Enabled(s, e)
    ensures Counted(Apply(s, e))
  {
    var us := Moved(s, e);
    if !e.Produce? {
      SumUpdate(PastIncrement, s.readers, e.i, us[e.i]);
    }
    if e.Produce? || e.Reinsert? {
      SignalKeepsHands(us, e.w);
    }
    if e.Store? {
      var i: nat :| HeldBy(s, i);
      assert e.i == i;
    }
  }

  ghost predicate Protocol(s: State) {
    InPhase(s) && Counted(s) && HandsAreMarkers(s) && MarkerFree(s.input) && |s.readers| > 0
  }

  lemma StepKeepsProtocol(s: State, e: Event)
    requires Protocol(s) && Enabled(s, e)
    ensures Protocol(Apply(s, e))
  {
    StepKeepsSetup(s, e);
    StepKeepsCount(s, e);
    StepKeepsHands(s, e);
    if Streaming(s) {
      StreamingStep(s, e);
    } else if Queued(s) {
      QueuedStep(s, e);
    } else if Drained(s) {
      DrainedStep(s, e);
    } else {
      var i: nat :| HeldBy(s, i);
      match e
      case Test(j) => HeldTest(s, i);
      case Reinsert(j, w) => HeldReinsert(s, i, w);
      case _ => HeldStep(s, i, e);
    }
  }

  lemma ReachableProtocol(input: seq<Record>, n: nat, t: State)
    requires n >= 1 && MarkerFree(input) && Reachable(input, n, t)
    ensures Protocol(t) && t.input == input && |t.readers| == n
  {
    var s := Start(input, n);
    var es :| Execution(Next, s, es, t);
    SumZero(PastIncrement, s.readers);
    assert Streaming(s);
    forall u, e | Protocol(u) && Next(u, e).Some? ensures Protocol(Next(u, e).value) {
      StepKeepsProtocol(u, e);
    }
    Induction(Next, Protocol, s, es, t);
    ReachableConserved(input, n, t);
  }

  // ---- The protocol's promises ----

  lemma {:induction false} MarkersIn(q: seq<Record>)
    ensures MarkerFree(q) ==> Sum(MarkerBit, q) == 0
    ensures MarkerEnds(q) ==> Sum(MarkerBit, q) == 1
  {
    SumZero(MarkerBit, q);
    if MarkerEnds(q) {
      SumZero(MarkerBit, q[..|q| - 1]);
      SumSnoc(MarkerBit, q[..|q| - 1], q[|q| - 1]);
      assert q == q[..|q| - 1] + [q[|q| - 1]];
    }
  }

  lemma HoldersIn(s: State)
    ensures NoHolder(s) ==> Sum(HasMarker, s.readers) == 0
    ensures forall i: nat :: OnlyHolder(s, i) ==> Sum(HasMarker, s.readers) == 1
  {
    SumZero(HasMarker, s.readers);
    forall i: nat | OnlyHolder(s, i) ensures Sum(HasMarker, s.readers) == 1 {
      var us := s.readers[i := Removing];
      SumUpdate(HasMarker, s.readers, i, Removing);
      SumZero(HasMarker, us);
    }
  }

  // A reader that is alone cannot be overtaken between reading and writing eos_count.
  ghost predicate CountedAlone(s: State) {
    |s.readers| <= 1 && Counted(s) && Current(s)
  }

  lemma StepKeepsCountAlone(s: State, e: Event)
    requires CountedAlone(s) && Enabled(s, e)
    ensures CountedAlone(Apply(s, e))
  {
    var us := Moved(s, e);
    if !e.Produce? {
      SumUpdate(PastIncrement, s.readers, e.i, us[e.i]);
    }
    if e.Produce? || e.Reinsert? {
      SignalKeepsHands(us, e.w);
    }
  }

  lemma ReachableCountedAlone(input: seq<Record>, n: nat, t: State)
    requires n <= 1 && Reachable(input, n, t)
    ensures CountedAlone(t) && |t.readers| == n
  {
    var s := Start(input, n);
    var es :| Execution(Next, s, es, t);
    SumZero(PastIncrement, s.readers);
    forall u, e | CountedAlone(u) && Next(u, e).Some? ensures CountedAlone(Next(u, e).value) {
      StepKeepsCountAlone(u, e);
    }
    Induction(Next, CountedAlone, s, es, t);
    ReachableConserved(input, n, t);
  }

  // At most one reader is between taking a marker and leaving the loop.
  ghost predicate Exclusive(s: State) {
    forall i, j :: 0 <= i < j < |s.readers| ==> HasMarker(s.readers[i]) + HasMarker(s.readers[j]) <= 1
  }

  // What eos_count++ has read is still current.
  ghost predicate Current(s: State) {
    forall i :: 0 <= i < |s.readers| && s.readers[i].Loaded? ==> s.readers[i].count == s.eos
  }

  /** Token mutual exclusion. Before the writer's last insert there is no marker; from then until
      eos_count reaches the number of readers there is exactly one, in the queue or in one reader's
      hands. So no two readers are ever between taking a marker and leaving the loop, the value an
      increment has read is still current when it is written back, and eos_count counts the readers
      past their increment; a reader that is alone keeps all three of these on any file. */
  lemma TokenExclusion(input: seq<Record>, n: nat, s: State)
    requires Reachable(input, n, s) && n >= 1
    ensures |s.readers| == n
    ensures n == 1 || MarkerFree(input) ==> Exclusive(s) && Current(s) && Counted(s) && s.eos <= n
    ensures MarkerFree(input) ==>
      && Tokens(s) <= 1
      && (s.next <= |input| ==> Tokens(s) == 0 && s.eos == 0)
      && (s.next == |input| + 1 && s.eos < n ==> Tokens(s) == 1)
  {
    ReachableConserved(input, n, s);
    PastBits();
    SumFull(PastIncrement, s.readers);
    if n == 1 {
      ReachableCountedAlone(input, n, s);
    }
    if MarkerFree(input) {
      ReachableProtocol(input, n, s);
      MarkersIn(s.queue);
      HoldersIn(s);
      if i: nat :| HeldBy(s, i) {
        assert Tokens(s) == 1;
      }
    }
  }

  // No reading is behind a marker: in the queue a marker is last, and while one is held the queue is empty.
  ghost predicate MarkerBehind(s: State) {
    && (forall k :: 0 <= k < |s.queue| && IsMarker(s.queue[k]) ==> k == |s.queue| - 1)
    && (forall i :: 0 <= i < |s.readers| && HasMarker(s.readers[i]) == 1 ==> s.queue == [])
  }

  /** The marker never overtakes a reading: in the queue it is last, and once a reader holds it no
      reading is left to remove. */
  lemma MarkerIsLast(input: seq<Record>, n: nat, s: State)
    requires n >= 1 && MarkerFree(input) && Reachable(input, n, s)
    ensures MarkerBehind(s)
  {
    ReachableProtocol(input, n, s);
    if Queued(s) {
      var ahead := s.queue[..|s.queue| - 1];
      assert forall k :: 0 <= k < |ahead| ==> s.queue[k] == ahead[k];
    }
  }

  lemma FinishedIsDrained(input: seq<Record>, n: nat, s: State)
    requires n >= 1 && MarkerFree(input) && Reachable(input, n, s) && Finished(s)
    ensures Drained(s)
  {
    ReachableProtocol(input, n, s);
    PastBits();
    SumFull(PastIncrement, s.readers);
  }

  // What main relies on after its joins: an empty queue, no marker left, every reader counted.
  predicate Clean(s: State) {
    s.queue == [] && Tokens(s) == 0 && s.eos == |s.readers|
  }

  lemma CleanFinish(input: seq<Record>, n: nat, s: State)
    requires n >= 1 && MarkerFree(input) && Reachable(input, n, s) && Finished(s)
    ensures Clean(s) && |s.readers| == n
  {
    FinishedIsDrained(input, n, s);
    ReachableProtocol(input, n, s);
    HoldersIn(s);
  }

  /** Exactly-once delivery: after every join, the file holds precisely the records of the input,
      if and only if no record of the input uses the marker's id; and then the queue is empty, no
      marker is left and eos_count equals the number of readers. */
  lemma ExactlyOnce(input: seq<Record>, n: nat, s: State)
    requires n >= 1 && Reachable(input, n, s) && Finished(s)
    ensures multiset(Recs(s.rows)) == multiset(input) <==> MarkerFree(input)
    ensures MarkerFree(input) ==> Clean(s)
  {
    ReachableConserved(input, n, s);
    WrittenIsTaken(s);
    DataIsMarkerFree(input);
    if MarkerFree(input) {
      FinishedIsDrained(input, n, s);
      CleanFinish(input, n, s);
      assert Unread(s) == [];
      assert Recs(s.taken) == input;
    } else {
      var k :| 0 <= k < |input| && IsMarker(input[k]);
      assert input[k] in multiset(input);
      assert Recs(s.taken) <= Data(input);
      assert input[k] !in Recs(s.taken);
    }
  }

  // Once every reader has exited, all that was removed is written.
  lemma WrittenIsTaken(s: State)
    requires Conserved(s) && Finished(s)
    ensures multiset(Recs(s.rows)) == multiset(Recs(s.taken))
  {
    HeldBagEmpty(s.readers);
    var kept := multiset(Recs(s.rows));
    assert kept + multiset{} == kept;
  }
}
