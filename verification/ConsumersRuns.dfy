/** Schedules that exist: executions built event by event, for any input and any number of readers. */
module ConsumersRuns {
  import opened Records
  import opened Consumers
  import opened ConsumersDelivery
  import opened ConsumersLiveness

  // The writer alone goes on to record k.
  lemma {:induction false} WriterRuns(input: seq<Record>, n: nat, s: State, k: nat) returns (t: State)
    requires Reachable(input, n, s) && s.input == input && s.next <= k <= |input| && !AnyWaiting(s.readers)
    ensures Reachable(input, n, t)
    ensures t == s.(next := k, queue := s.queue + input[s.next..k])
    decreases k - s.next
  {
    t := s;
    if s.next < k {
      var u := Step(input, n, s, Produce(input[s.next], 0));
      assert s.queue + input[s.next..k] == u.queue + input[u.next..k];
      t := WriterRuns(input, n, u, k);
    }
  }

  // The writer alone comes to its end.
  lemma WriterFinishes(input: seq<Record>, n: nat, s: State) returns (t: State)
    requires Reachable(input, n, s) && s.input == input && s.next <= |input| && !AnyWaiting(s.readers)
    ensures Reachable(input, n, t)
    ensures t == s.(next := |input| + 1, queue := s.queue + input[s.next..] + [END_MARKER])
  {
    t := WriterRuns(input, n, s, |input|);
    assert input[s.next..] == input[s.next..|input|];
    t := Step(input, n, t, Produce(END_MARKER, 0));
  }

  // Reader i alone writes the readings up to the first marker and takes that.
  lemma {:induction false} ReaderDrains(input: seq<Record>, n: nat, s: State, i: nat,
                                        d: seq<Record>, m: Record, rest: seq<Record>) returns (t: State)
    requires Reachable(input, n, s) && i < |s.readers| && s.readers[i] == Removing
    requires s.queue == d + [m] + rest && MarkerFree(d) && IsMarker(m)
    ensures Reachable(input, n, t)
    ensures t == s.(queue := rest, readers := s.readers[i := Holding(m)], rows := t.rows, taken := t.taken)
    ensures Recs(t.rows) == Recs(s.rows) + d
    decreases |d|
  {
    t := Step(input, n, s, Take(i));
    if d == [] {
      assert t.queue == rest;
    } else {
      assert s.queue[0] == d[0] && t.queue == d[1..] + [m] + rest;
      t := Step(input, n, t, Write(i));
      RecsSnoc(s.rows, Tagged(i, d[0]));
      assert t.readers == s.readers;
      assert Recs(s.rows) + d == Recs(t.rows) + d[1..];
      t := ReaderDrains(input, n, t, i, d[1..], m, rest);
    }
  }

  // The readers below k have exited, the others have not begun.
  function FirstExited(n: nat, k: nat): seq<Reader> {
    seq(n, i => if i < k then Exited else Removing)
  }

  // Reader k, holding the only marker, counts it and hands it on, or drops it as the last.
  lemma ReaderPasses(input: seq<Record>, n: nat, s: State, k: nat, m: Record) returns (t: State)
    requires k < n && IsMarker(m) && Reachable(input, n, s)
    requires s.readers == FirstExited(n, k)[k := Holding(m)] && s.eos == k
    ensures Reachable(input, n, t)
    ensures t == s.(readers := FirstExited(n, k + 1), eos := k + 1,
                    queue := s.queue + if k + 1 < n then [m] else [])
  {
    t := Step(input, n, s, Load(k));
    t := Step(input, n, t, Store(k));
    t := Step(input, n, t, Test(k));
    var us := t.readers[k := Exited];
    assert us == FirstExited(n, k + 1);
    if k + 1 < n {
      assert !AnyWaiting(t.readers);
      t := Step(input, n, t, Reinsert(k, 0));
    }
  }

  // The first k readers pass the first marker before the writer inserts what follows it.
  lemma {:induction false} ReadersPass(input: seq<Record>, n: nat, a: seq<Record>, m: Record, k: nat) returns (s: State)
    requires k <= n && MarkerFree(a) && IsMarker(m) && a + [m] <= input
    ensures Reachable(input, n, s) && s.input == input && s.next == |a| + 1
    ensures s.readers == FirstExited(n, k) && s.eos == k
    ensures s.queue == (if k == 0 then a else []) + (if k == 0 || k < n then [m] else [])
    ensures Recs(s.rows) == if k == 0 then [] else a
  {
    if k == 0 {
      s := Begin(input, n);
      s := WriterRuns(input, n, s, |a| + 1);
      assert input[..|a| + 1] == a + [m];
      assert s.queue == a + [m];
      assert s.readers == FirstExited(n, 0);
    } else {
      s := ReadersPass(input, n, a, m, k - 1);
      var d := if k == 1 then a else [];
      assert s.queue == d + [m] + [];
      s := ReaderDrains(input, n, s, k - 1, d, m, []);
      s := ReaderPasses(input, n, s, k - 1, m);
    }
  }

  /** On a file whose first marker is followed by b, the program can finish with b never removed. */
  lemma RestIsStranded(input: seq<Record>, n: nat, a: seq<Record>, m: Record, b: seq<Record>) returns (s: State)
    requires n >= 1 && MarkerFree(a) && IsMarker(m) && input == a + [m] + b
    ensures Reachable(input, n, s) && Finished(s)
    ensures s.queue == b + [END_MARKER] && Recs(s.rows) == a
  {
    s := ReadersPass(input, n, a, m, n);
    assert input[s.next..] == b;
    assert s.queue == [];
    s := WriterFinishes(input, n, s);
    assert [] + b + [END_MARKER] == b + [END_MARKER];
  }

  /** On a file with a marker of its own, two readers can hold a marker at once. */
  lemma TwoHold(input: seq<Record>, n: nat) returns (s: State)
    requires n >= 2 && !MarkerFree(input)
    ensures Reachable(input, n, s) && s.eos == 0 && |s.readers| == n
    ensures s.readers[0].Holding? && IsMarker(s.readers[0].rec)
    ensures s.readers[1].Holding? && IsMarker(s.readers[1].rec)
    ensures forall j :: 2 <= j < n ==> s.readers[j] == Removing
  {
    s := Begin(input, n);
    s := WriterFinishes(input, n, s);
    var m, b := FirstMarker(input);
    var rest := b + [END_MARKER];
    assert s.queue == BeforeMarker(input) + [m] + rest;
    s := ReaderDrains(input, n, s, 0, BeforeMarker(input), m, rest);
    assert IsMarker(rest[|b|]);
    var m', rest' := FirstMarker(rest);
    s := ReaderDrains(input, n, s, 1, BeforeMarker(rest), m', rest');
  }

  lemma FirstMarker(q: seq<Record>) returns (m: Record, rest: seq<Record>)
    requires !MarkerFree(q)
    ensures q == BeforeMarker(q) + [m] + rest && IsMarker(m) && MarkerFree(BeforeMarker(q))
  {
    BeforeMarkerIsPrefix(q);
    var k := |BeforeMarker(q)|;
    assert k < |q|;
    m, rest := q[k], q[k + 1..];
  }

  /** Two readers that hold a marker at once can lose one of the two increments. */
  lemma OneIncrementLost(input: seq<Record>, n: nat) returns (s: State)
    requires n >= 2 && !MarkerFree(input)
    ensures Reachable(input, n, s) && s.eos == 1
    ensures |s.readers| == n && s.readers[0].Stored? && s.readers[1].Stored?
    ensures forall j :: 2 <= j < n ==> s.readers[j] == Removing
  {
    s := TwoHold(input, n);
    s := Step(input, n, s, Load(0));
    s := Step(input, n, s, Load(1));
    s := Step(input, n, s, Store(0));
    s := Step(input, n, s, Store(1));
  }

  /** From every reachable state the program can be brought to its end, and whatever every event keeps
      still holds there. */
  lemma {:induction false} CanFinish(input: seq<Record>, n: nat, inv: State -> bool, s: State) returns (t: State)
    requires forall u, e :: inv(u) && Enabled(u, e) ==> inv(Apply(u, e))
    requires Reachable(input, n, s) && inv(s)
    ensures Reachable(input, n, t) && Finished(t) && inv(t)
    decreases PotentialOf(s)
  {
    t := s;
    if !Finished(s) {
      DeadlockFree(input, n, s);
      var e :| Enabled(s, e) && !e.Spurious?;
      ReachableLive(input, n, s);
      t := Step(input, n, s, e);
      ReachableLive(input, n, t);
      StepUsesPotential(s, e);
      t := CanFinish(input, n, inv, t);
    }
  }

  function PotentialOf(s: State): nat {
    if Potential(s) < 0 then 0 else Potential(s)
  }
}
