/** No lost wakeup, no deadlock, and a bound on the length of every execution; for every input. */
module ConsumersLiveness {
  import opened Records
  import opened Executions
  import opened Consumers
  import opened ConsumersDelivery
  import opened ConsumersToken

  // Every queued record has a released reader coming for it while others still sleep.
  ghost predicate WakeupsCover(s: State) {
    AnyWaiting(s.readers) ==> |s.queue| <= Sum(IsWoken, s.readers)
  }

  // eos_count never runs ahead of the readers that are through with it, even when two
  // increments overlap; so the marker is only dropped when nobody needs it any more.
  ghost predicate MarkerSupplied(s: State) {
    && s.next <= |s.input| + 1
    && s.eos <= Sum(PastIncrement, s.readers)
    && (forall i :: 0 <= i < |s.readers| && s.readers[i].Loaded? ==>
          s.readers[i].count <= Sum(PastIncrement, s.readers))
    && (s.next == |s.input| + 1 ==> Tokens(s) >= 1 || Sum(PastIncrement, s.readers) == |s.readers|)
  }

  lemma SignalWakes(rs: seq<Reader>, w: nat)
    requires MaySignal(rs, w)
    ensures AnyWaiting(rs) ==> Sum(IsWoken, Signal(rs, w)) == Sum(IsWoken, rs) + 1
    ensures !AnyWaiting(rs) ==> Signal(rs, w) == rs
    ensures Sum(HasMarker, Signal(rs, w)) == Sum(HasMarker, rs)
  {
    if AnyWaiting(rs) {
      SumUpdate(IsWoken, rs, w, Woken);
      SumUpdate(HasMarker, rs, w, Woken);
    }
  }

  lemma StepKeepsWakeups(s: State, e: Event)
    requires WakeupsCover(s) && Enabled(s, e)
    ensures WakeupsCover(Apply(s, e))
  {
    var us := Moved(s, e);
    if !e.Produce? {
      SumUpdate(IsWoken, s.readers, e.i, us[e.i]);
      assert forall j :: 0 <= j < |us| && j != e.i ==> us[j] == s.readers[j];
    }
    if e.Produce? || e.Reinsert? {
      SignalWakes(us, e.w);
    }
  }

  lemma TokensAfter(s: State, e: Event)
    requires HandsAreMarkers(s) && Enabled(s, e)
    ensures e.Produce? ==> Tokens(Apply(s, e)) == Tokens(s) + MarkerBit(e.rec)
    ensures e.Test? && s.eos >= |s.readers| ==> Tokens(Apply(s, e)) + 1 == Tokens(s)
    ensures !e.Produce? && !(e.Test? && s.eos >= |s.readers|) ==> Tokens(Apply(s, e)) == Tokens(s)
  {
    var us := Moved(s, e);
    if !e.Produce? {
      SumUpdate(HasMarker, s.readers, e.i, us[e.i]);
    }
    match e
    case Produce(rec, w) =>
      SignalWakes(us, w);
      SumSnoc(MarkerBit, s.queue, rec);
    case Reinsert(i, w) =>
      SignalWakes(us, w) by { assert MaySignal(us, w); }
      SumSnoc(MarkerBit, s.queue, s.readers[i].rec);
    case _ =>
  }

  lemma PastAfter(s: State, e: Event)
    requires Enabled(s, e)
    ensures Sum(PastIncrement, Apply(s, e).readers) ==
            Sum(PastIncrement, s.readers) + if e.Store? then 1 else 0
  {
    var us := Moved(s, e);
    if !e.Produce? {
      SumUpdate(PastIncrement, s.readers, e.i, us[e.i]);
    }
    if e.Produce? || e.Reinsert? {
      SignalKeepsHands(us, e.w);
    }
  }

  lemma StepKeepsSupply(s: State, e: Event)
    requires MarkerSupplied(s) && HandsAreMarkers(s) && Enabled(s, e)
    ensures MarkerSupplied(Apply(s, e))
  {
    PastAfter(s, e);
    TokensAfter(s, e);
    PastBits();
    SumFull(PastIncrement, s.readers);
    SumFull(PastIncrement, Apply(s, e).readers);
  }

  ghost predicate Live(s: State) {
    WakeupsCover(s) && MarkerSupplied(s) && HandsAreMarkers(s)
  }

  lemma ReachableLive(input: seq<Record>, n: nat, t: State)
    requires Reachable(input, n, t)
    ensures Live(t) && t.input == input && |t.readers| == n
  {
    var s := Start(input, n);
    var es :| Execution(Next, s, es, t);
    SumZero(PastIncrement, s.readers);
    forall u, e | Live(u) && Next(u, e).Some? ensures Live(Next(u, e).value) {
      StepKeepsWakeups(u, e);
      StepKeepsSupply(u, e);
      StepKeepsHands(u, e);
    }
    Induction(Next, Live, s, es, t);
    ReachableConserved(input, n, t);
  }

  /** No lost wakeup: while a reader sleeps, every record in the queue is matched by a reader that
      has been released and has not run yet. */
  lemma NoLostWakeup(input: seq<Record>, n: nat, s: State)
    requires Reachable(input, n, s)
    ensures AnyWaiting(s.readers) ==> |s.queue| <= Sum(IsWoken, s.readers)
  {
    ReachableLive(input, n, s);
  }

  /** The scheduler is free: a sleeping reader may be the one an insert releases, or wake up without a
      signal, and every other reader can go on, whatever the threads beside it do. */
  lemma ThreadsAreFree(s: State, i: nat)
    requires i < |s.readers|
    ensures var r, here := s.readers[i], (u: Reader) => s.readers[i := u];
      && (r.Waiting? ==>
            && Enabled(s, Spurious(i)) && Apply(s, Spurious(i)) == s.(readers := here(Woken))
            && (s.next < |s.input| ==>
                  var insert := Produce(s.input[s.next], i);
                  Enabled(s, insert) && Apply(s, insert).readers == here(Woken)))
      && (AtQueue(r) && s.queue == [] ==> Enabled(s, Block(i)) && Apply(s, Block(i)) == s.(readers := here(Waiting)))
      && (AtQueue(r) && s.queue != [] ==> Enabled(s, Take(i)) && Apply(s, Take(i)).readers == here(Holding(s.queue[0])))
      && (r.Holding? && !IsMarker(r.rec) ==> Enabled(s, Write(i)))
      && (r.Holding? && IsMarker(r.rec) ==> Enabled(s, Load(i)))
      && (r.Loaded? ==> Enabled(s, Store(i)))
      && (r.Stored? ==> Enabled(s, Test(i)))
      && (r.Reinserting? ==> exists w :: Enabled(s, Reinsert(i, w)))
  {
    var w := CanSignal(s.readers);
    assert s.readers[i].Reinserting? ==> Enabled(s, Reinsert(i, w));
  }

  ghost predicate Stuck(s: State) {
    forall e :: Enabled(s, e) ==> e.Spurious?
  }

  lemma CanSignal(rs: seq<Reader>) returns (w: nat)
    ensures MaySignal(rs, w)
  {
    w := 0;
    if AnyWaiting(rs) {
      w :| w < |rs| && rs[w].Waiting?;
    }
  }

  // Only a waiting or exited reader has nothing to do.
  lemma ReaderCanMove(s: State, i: nat)
    requires i < |s.readers| && !s.readers[i].Waiting? && !s.readers[i].Exited?
    ensures !Stuck(s)
  {
    var w := CanSignal(s.readers);
    var e := match s.readers[i]
      case Removing => if s.queue == [] then Block(i) else Take(i)
      case Woken => if s.queue == [] then Block(i) else Take(i)
      case Holding(rec) => if IsMarker(rec) then Load(i) else Write(i)
      case Loaded(_, _) => Store(i)
      case Stored(_) => Test(i)
      case _ => Reinsert(i, w);
    assert Enabled(s, e);
  }

  lemma WriterCanMove(s: State)
    requires s.next <= |s.input|
    ensures !Stuck(s)
  {
    var w := CanSignal(s.readers);
    var rec := if s.next < |s.input| then s.input[s.next] else Record(0, 0.0, 0);
    assert Enabled(s, Produce(rec, w));
  }

  /** No deadlock: an execution that cannot go on, except by spurious wakeups, has finished; and a
      finished one cannot go on at all. Neither needs the input to be free of marker ids. */
  lemma DeadlockFree(input: seq<Record>, n: nat, s: State)
    requires Reachable(input, n, s)
    ensures Stuck(s) <==> Finished(s)
    ensures Finished(s) ==> forall e :: !Enabled(s, e)
  {
    ReachableLive(input, n, s);
    if Stuck(s) {
      if s.next <= |s.input| {
        WriterCanMove(s);
      }
      forall i | 0 <= i < |s.readers| ensures s.readers[i].Waiting? || s.readers[i].Exited? {
        if !s.readers[i].Waiting? && !s.readers[i].Exited? {
          ReaderCanMove(s, i);
        }
      }
      NobodySleepsForever(s);
    }
  }

  lemma NobodySleepsForever(s: State)
    requires Live(s) && s.next == |s.input| + 1
    requires forall i :: 0 <= i < |s.readers| ==> s.readers[i].Waiting? || s.readers[i].Exited?
    ensures forall i :: 0 <= i < |s.readers| ==> s.readers[i].Exited?
  {
    if AnyWaiting(s.readers) {
      SumZero(IsWoken, s.readers);
      SumZero(HasMarker, s.readers);
      assert s.queue == [];
      PastBits();
      SumFull(PastIncrement, s.readers);
    }
  }

  // ---- Termination ----

  function Weight(r: Reader): nat {
    match r
    case Removing => 6
    case Waiting => 5
    case Woken => 6
    case Holding(_) => 7
    case Loaded(_, _) => 6
    case Stored(_) => 5
    case Reinserting(_) => 4
    case Exited => 0
  }

  // Work left: inserts of the writer, records in the queue, and what each reader still has to do.
  function Potential(s: State): int {
    4 * (|s.input| + 1 - s.next) + 2 * |s.queue| + Sum(Weight, s.readers)
  }

  lemma SignalWeight(rs: seq<Reader>, w: nat)
    ensures Sum(Weight, Signal(rs, w)) <= Sum(Weight, rs) + 1
  {
    if w < |rs| && rs[w].Waiting? {
      SumUpdate(Weight, rs, w, Woken);
    }
  }

  lemma StepUsesPotential(s: State, e: Event)
    requires Enabled(s, e)
    ensures Potential(Apply(s, e)) <= Potential(s) + if e.Spurious? then 1 else -1
  {
    var us := Moved(s, e);
    if !e.Produce? {
      SumUpdate(Weight, s.readers, e.i, us[e.i]);
    }
    if e.Produce? || e.Reinsert? {
      SignalWeight(us, e.w);
    }
  }

  function SpuriousBit(e: Event): nat {
    if e.Spurious? then 1 else 0
  }

  lemma {:induction false} ExecutionUsesPotential(s: State, es: seq<Event>, t: State)
    requires Execution(Next, s, es, t)
    ensures |es| + Potential(t) <= Potential(s) + 2 * Sum(SpuriousBit, es)
    decreases |es|
  {
    if es != [] {
      StepUsesPotential(s, es[0]);
      ExecutionUsesPotential(Apply(s, es[0]), es[1..], t);
    }
  }

  lemma {:induction false} StartWeight(n: nat)
    ensures Sum(Weight, seq(n, _ => Removing)) == 6 * n
  {
    var rs := seq(n, _ => Removing);
    if n > 0 {
      assert rs[1..] == seq(n - 1, _ => Removing);
      StartWeight(n - 1);
    }
  }

  /** Termination: an execution with k spurious wakeups has at most 4 * (|input| + 1) + 6 * n + 2 * k
      events, whatever the scheduler does. */
  lemma Terminates(input: seq<Record>, n: nat, es: seq<Event>, t: State)
    requires Execution(Next, Start(input, n), es, t)
    ensures |es| <= 4 * (|input| + 1) + 6 * n + 2 * Sum(SpuriousBit, es)
  {
    ExecutionUsesPotential(Start(input, n), es, t);
    StartWeight(n);
    ReachableLive(input, n, t);
  }
}
