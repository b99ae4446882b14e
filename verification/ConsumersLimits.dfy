/**
 Where the protocol's promises end. Each promise is matched with the exact files, or the exact number of
 readers, for which every execution keeps it.
 */
module ConsumersLimits {
  import opened Records
  import opened Executions
  import opened Consumers
  import opened ConsumersDelivery
  import opened ConsumersToken
  import opened ConsumersLiveness
  import opened ConsumersRuns

  // ---- The token ----

  /** Two readers never hold a marker at once exactly if there is one reader or no reading uses its id. */
  lemma ExclusionExactly(input: seq<Record>, n: nat)
    requires n >= 1
    ensures (forall s :: Reachable(input, n, s) ==> Exclusive(s)) <==> n == 1 || MarkerFree(input)
  {
    if n == 1 || MarkerFree(input) {
      forall s | Reachable(input, n, s) ensures Exclusive(s) {
        TokenExclusion(input, n, s);
      }
    } else {
      var s := TwoHold(input, n);
      assert HasMarker(s.readers[0]) + HasMarker(s.readers[1]) == 2;
    }
  }

  /** The unlocked eos_count++ never loses an increment exactly if there is one reader or no reading uses
      the marker's id. */
  lemma CountExactly(input: seq<Record>, n: nat)
    requires n >= 1
    ensures (forall s :: Reachable(input, n, s) ==> s.eos == Sum(PastIncrement, s.readers))
      <==> n == 1 || MarkerFree(input)
  {
    if n == 1 || MarkerFree(input) {
      forall s | Reachable(input, n, s) ensures s.eos == Sum(PastIncrement, s.readers) {
        TokenExclusion(input, n, s);
      }
    } else {
      var s := OneIncrementLost(input, n);
      SumAtLeastTwo(PastIncrement, s.readers, 0, 1);
    }
  }

  // An increment has been lost and no reader is about to restore it.
  predicate Short(s: State) {
    && s.eos < Sum(PastIncrement, s.readers)
    && forall i :: 0 <= i < |s.readers| && s.readers[i].Loaded? ==> s.readers[i].count < Sum(PastIncrement, s.readers)
  }

  lemma StepKeepsShort(s: State, e: Event)
    requires Short(s) && Enabled(s, e)
    ensures Short(Apply(s, e))
  {
    PastAfter(s, e);
  }

  /** A lost increment stays lost: with two readers or more and a marker in the file, the program can
      finish with an eos_count below the number of readers. */
  lemma IncrementLost(input: seq<Record>, n: nat) returns (s: State)
    requires n >= 2 && !MarkerFree(input)
    ensures Reachable(input, n, s) && Finished(s) && s.eos < n
  {
    s := OneIncrementLost(input, n);
    SumAtLeastTwo(PastIncrement, s.readers, 0, 1);
    assert Short(s);
    forall u, e | Short(u) && Enabled(u, e) ensures Short(Apply(u, e)) {
      StepKeepsShort(u, e);
    }
    s := CanFinish(input, n, Short, s);
    ReachableConserved(input, n, s);
    PastBits();
    SumFull(PastIncrement, s.readers);
  }

  /** Every execution finishes with each reader counted exactly if there is one reader or no reading uses
      the marker's id. */
  lemma FinalCountExactly(input: seq<Record>, n: nat)
    requires n >= 1
    ensures (forall s :: Reachable(input, n, s) && Finished(s) ==> s.eos == n) <==> n == 1 || MarkerFree(input)
  {
    if n == 1 || MarkerFree(input) {
      forall s | Reachable(input, n, s) && Finished(s) ensures s.eos == n {
        TokenExclusion(input, n, s);
        PastBits();
        SumFull(PastIncrement, s.readers);
      }
    } else {
      var s := IncrementLost(input, n);
    }
  }

  // With a marker in the file, the writer alone fills the queue with two.
  lemma TwoQueued(input: seq<Record>, n: nat, k: nat) returns (s: State)
    requires k < |input| && IsMarker(input[k])
    ensures Reachable(input, n, s) && s.queue == input + [END_MARKER]
    ensures Tokens(s) >= 2
  {
    s := Begin(input, n);
    s := WriterFinishes(input, n, s);
    assert s.queue[k] == input[k];
    SumAtLeastTwo(MarkerBit, s.queue, k, |input|);
  }

  /** There is never more than one marker, and never a reading behind one, exactly if no reading uses the
      marker's id. */
  lemma OneMarkerExactly(input: seq<Record>, n: nat)
    requires n >= 1
    ensures (forall s :: Reachable(input, n, s) ==> Tokens(s) <= 1) <==> MarkerFree(input)
    ensures (forall s :: Reachable(input, n, s) ==> MarkerBehind(s)) <==> MarkerFree(input)
  {
    if MarkerFree(input) {
      forall s | Reachable(input, n, s) ensures Tokens(s) <= 1 && MarkerBehind(s) {
        TokenExclusion(input, n, s);
        MarkerIsLast(input, n, s);
      }
    } else {
      var k :| 0 <= k < |input| && IsMarker(input[k]);
      var s := TwoQueued(input, n, k);
      assert IsMarker(s.queue[k]) && k != |s.queue| - 1;
    }
  }

  /** There is never a marker before the writer's last insert exactly if no reading uses its id. */
  lemma NoEarlyToken(input: seq<Record>, n: nat)
    requires n >= 1
    ensures (forall s :: Reachable(input, n, s) && s.next <= |input| ==> Tokens(s) == 0) <==> MarkerFree(input)
  {
    if MarkerFree(input) {
      forall s | Reachable(input, n, s) && s.next <= |input| ensures Tokens(s) == 0 {
        TokenExclusion(input, n, s);
      }
    } else {
      var k :| 0 <= k < |input| && IsMarker(input[k]);
      var s := Begin(input, n);
      s := WriterRuns(input, n, s, k + 1);
      assert s.queue[k] == input[k];
      SumAtLeast(MarkerBit, s.queue, k);
      assert Tokens(s) >= 1;
    }
  }

  /** Every execution finishes with an empty queue, no marker left and every reader counted exactly if no
      reading uses the marker's id. */
  lemma CleanExactly(input: seq<Record>, n: nat)
    requires n >= 1
    ensures (forall s :: Reachable(input, n, s) && Finished(s) ==> Clean(s)) <==> MarkerFree(input)
  {
    if MarkerFree(input) {
      forall s | Reachable(input, n, s) && Finished(s) ensures Clean(s) {
        CleanFinish(input, n, s);
      }
    } else {
      var m, b := FirstMarker(input);
      var s := RestIsStranded(input, n, BeforeMarker(input), m, b);
    }
  }

  // ---- The readings ----

  // A reader has taken a marker.
  predicate MarkerTaken(r: Reader) {
    HasMarker(r) == 1 || r.Exited?
  }

  function Ahead(s: State): seq<Record> {
    s.queue + Unread(s)
  }

  // Once a reader has taken a marker, no reading is left in the queue or to come.
  ghost predicate ReadingsFirst(s: State) {
    && s.next <= |s.input| + 1
    && MarkersTrail(Ahead(s))
    && ((exists i :: 0 <= i < |s.readers| && MarkerTaken(s.readers[i])) ==> OnlyMarkers(Ahead(s)))
  }

  lemma SignalKeepsTaken(rs: seq<Reader>, w: nat)
    ensures |Signal(rs, w)| == |rs|
    ensures forall i :: 0 <= i < |rs| ==> MarkerTaken(Signal(rs, w)[i]) == MarkerTaken(rs[i])
  {
  }

  lemma ProduceKeepsReadingsFirst(s: State, rec: Record, w: nat)
    requires ReadingsFirst(s) && Enabled(s, Produce(rec, w))
    ensures ReadingsFirst(Apply(s, Produce(rec, w)))
  {
    var t := Apply(s, Produce(rec, w));
    SignalKeepsTaken(s.readers, w);
    if s.next < |s.input| {
      assert Unread(s) == [rec] + Unread(t);
      assert Ahead(t) == Ahead(s);
    } else {
      assert Ahead(t) == Ahead(s) + [rec];
    }
  }

  lemma TakeKeepsReadingsFirst(s: State, i: nat)
    requires ReadingsFirst(s) && Enabled(s, Take(i))
    ensures ReadingsFirst(Apply(s, Take(i)))
  {
    var t := Apply(s, Take(i));
    assert Ahead(s)[1..] == Ahead(t);
    MarkersTrailRest(Ahead(s));
    assert forall j :: 0 <= j < |t.readers| && j != i ==> t.readers[j] == s.readers[j];
  }

  lemma ReinsertKeepsReadingsFirst(s: State, i: nat, w: nat)
    requires ReadingsFirst(s) && HandsAreMarkers(s) && Enabled(s, Reinsert(i, w))
    ensures ReadingsFirst(Apply(s, Reinsert(i, w)))
  {
    assert MarkerTaken(s.readers[i]);
    assert OnlyMarkers(Ahead(s));
    assert OnlyMarkers(Ahead(Apply(s, Reinsert(i, w)))) by {
      assert OnlyMarkers(s.queue) && OnlyMarkers(Unread(s)) by {
        assert forall k :: 0 <= k < |s.queue| ==> s.queue[k] == Ahead(s)[k];
        assert forall k :: 0 <= k < |Unread(s)| ==> Unread(s)[k] == Ahead(s)[|s.queue| + k];
      }
    }
  }

  lemma StepKeepsReadingsFirst(s: State, e: Event)
    requires ReadingsFirst(s) && HandsAreMarkers(s) && Enabled(s, e)
    ensures ReadingsFirst(Apply(s, e))
  {
    match e
    case Produce(rec, w) => ProduceKeepsReadingsFirst(s, rec, w);
    case Take(i) => TakeKeepsReadingsFirst(s, i);
    case Reinsert(i, w) => ReinsertKeepsReadingsFirst(s, i, w);
    case _ =>
      var t := Apply(s, e);
      assert Ahead(t) == Ahead(s);
      assert forall j :: 0 <= j < |t.readers| && j != e.i ==> t.readers[j] == s.readers[j];
  }

  lemma ReachableReadingsFirst(input: seq<Record>, n: nat, t: State)
    requires MarkersTrail(input) && Reachable(input, n, t)
    ensures ReadingsFirst(t)
  {
    var s := Start(input, n);
    var es :| Execution(Next, s, es, t);
    assert Ahead(s) == input;
    var inv := (u: State) => ReadingsFirst(u) && HandsAreMarkers(u);
    forall u, e | inv(u) && Next(u, e).Some? ensures inv(Next(u, e).value) {
      StepKeepsReadingsFirst(u, e);
      StepKeepsHands(u, e);
    }
    Induction(Next, inv, s, es, t);
  }

  lemma TrailingMarkersLoseNothing(input: seq<Record>, n: nat, s: State)
    requires n >= 1 && MarkersTrail(input) && Reachable(input, n, s) && Finished(s)
    ensures multiset(Recs(s.rows)) == multiset(Data(input))
  {
    ReachableConserved(input, n, s);
    ReachableReadingsFirst(input, n, s);
    WrittenIsTaken(s);
    assert MarkerTaken(s.readers[0]);
    assert Unread(s) == [] && Ahead(s) == s.queue;
    OnlyMarkersNoData(s.queue);
    assert Recs(s.taken) == Data(input);
  }

  lemma MarkersThenMarkers(a: seq<Record>, m: Record, b: seq<Record>)
    requires MarkerFree(a) && IsMarker(m) && OnlyMarkers(b)
    ensures MarkersTrail(a + [m] + b)
  {
  }

  // A reading behind the first marker makes the readings more than those before it.
  lemma ReadingBehind(a: seq<Record>, m: Record, b: seq<Record>)
    requires MarkerFree(a) && IsMarker(m) && !MarkersTrail(a + [m] + b)
    ensures |Data(a + [m] + b)| > |a|
  {
    if OnlyMarkers(b) {
      MarkersThenMarkers(a, m, b);
      assert false;
    }
    OnlyMarkersNoData(b);
    DataIsMarkerFree(a);
    DataConcat(a + [m], b);
    DataSnoc(a, m);
  }

  /** No execution loses a reading, whatever the schedule, exactly if in the file no reading is behind a
      record with the marker's id. */
  lemma NoReadingLostExactly(input: seq<Record>, n: nat)
    requires n >= 1
    ensures (forall s :: Reachable(input, n, s) && Finished(s) ==> multiset(Recs(s.rows)) == multiset(Data(input)))
      <==> MarkersTrail(input)
  {
    if MarkersTrail(input) {
      forall s | Reachable(input, n, s) && Finished(s) ensures multiset(Recs(s.rows)) == multiset(Data(input)) {
        TrailingMarkersLoseNothing(input, n, s);
      }
    } else {
      var m, b := FirstMarker(input);
      var a := BeforeMarker(input);
      var s := RestIsStranded(input, n, a, m, b);
      ReadingBehind(a, m, b);
      assert |multiset(Recs(s.rows))| == |a| && |multiset(Data(input))| > |a|;
    }
  }

  /** The smallest such file: with any number of readers, [id 0, id 7] can end with nothing written and the
      id-7 reading left in the queue. */
  lemma ReadingLost(n: nat) returns (s: State)
    requires n >= 1
    ensures var zero, seven := Record(0, 1.0, 1), Record(7, 2.0, 2);
      Reachable([zero, seven], n, s) && Finished(s) && s.rows == [] && s.queue == [seven, END_MARKER]
  {
    var zero, seven := Record(0, 1.0, 1), Record(7, 2.0, 2);
    assert [zero, seven] == [] + [zero] + [seven];
    s := RestIsStranded([zero, seven], n, [], zero, [seven]);
    assert |Recs(s.rows)| == |s.rows|;
  }

  // ---- The order of the file ----

  lemma {:induction false} MineIsAll(ts: seq<Tagged>)
    requires forall k :: 0 <= k < |ts| ==> ts[k].who == 0
    ensures Mine(ts, 0) == Recs(ts)
  {
    if ts != [] {
      MineIsAll(ts[1..]);
      assert Recs(ts) == [ts[0].rec] + Recs(ts[1..]);
    }
  }

  lemma LoneReaderKeepsOrder(input: seq<Record>, n: nat, s: State)
    requires n <= 1 && Reachable(input, n, s)
    ensures Recs(s.rows) <= Data(input)
  {
    ReachableConserved(input, n, s);
    MineIsAll(s.rows);
    MineIsAll(s.taken);
    if n == 1 {
      assert Mine(s.rows, 0) + Held(s.readers[0]) == Mine(s.taken, 0);
    }
    assert Recs(s.taken) <= Data(input);
  }

  // The second of two readers writes first.
  lemma SecondWritesFirst(a: Record, b: Record, n: nat) returns (s: State)
    requires !IsMarker(a) && !IsMarker(b) && n >= 2
    ensures Reachable([a, b], n, s) && Recs(s.rows) == [b]
  {
    var input := [a, b];
    s := Begin(input, n);
    s := WriterRuns(input, n, s, 2);
    assert s.queue == [a, b];
    s := Step(input, n, s, Take(0));
    assert s.queue == [b] && s.readers[1] == Removing;
    s := Step(input, n, s, Take(1));
    s := Step(input, n, s, Write(1));
  }

  /** The file is at every moment a prefix of the readings, in input order, for every input and every
      schedule, exactly if there is at most one reader. */
  lemma FileOrder(n: nat)
    ensures (forall input, s :: Reachable(input, n, s) ==> Recs(s.rows) <= Data(input)) <==> n <= 1
  {
    if n <= 1 {
      forall input, s | Reachable(input, n, s) ensures Recs(s.rows) <= Data(input) {
        LoneReaderKeepsOrder(input, n, s);
      }
    } else {
      var a, b := Record(1, 1.0, 1), Record(2, 2.0, 2);
      var s := SecondWritesFirst(a, b, n);
      DataIsMarkerFree([a, b]);
      assert !(Recs(s.rows) <= Data([a, b]));
    }
  }
}
