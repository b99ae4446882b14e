/** Which thread each record of the log comes from. */
module GatewaySources {
  import opened Records
  import opened Gateway
  import opened GatewayMemory
  import opened GatewayCounters
  import opened GatewayReaders

  lemma BySnoc(log: seq<Record>, authors: seq<Author>, r: Record, b: Author, a: Author)
    requires |log| == |authors|
    ensures By(log + [r], authors + [b], a) == By(log, authors, a) + if b == a then [r] else []
  {
    assert (log + [r])[..|log|] == log && (authors + [b])[..|log|] == authors;
  }

  lemma {:induction false} ByAbsent(log: seq<Record>, authors: seq<Author>, a: Author)
    requires |log| == |authors| && a !in authors
    ensures By(log, authors, a) == []
  {
    if log != [] {
      var n := |log| - 1;
      assert authors[n] != a;
      ByAbsent(log[..n], authors[..n], a);
    }
  }

  // By(log, authors, a) holds exactly the records of log that a wrote.
  lemma {:induction false} ByMembers(log: seq<Record>, authors: seq<Author>, a: Author)
    requires |log| == |authors|
    ensures forall k :: 0 <= k < |log| && authors[k] == a ==> log[k] in By(log, authors, a)
    ensures forall r :: r in By(log, authors, a) ==> exists k :: 0 <= k < |log| && authors[k] == a && log[k] == r
  {
    if log != [] {
      var n := |log| - 1;
      ByMembers(log[..n], authors[..n], a);
      forall r | r in By(log, authors, a) ensures exists k :: 0 <= k < |log| && authors[k] == a && log[k] == r {
        if r in By(log[..n], authors[..n], a) {
          var k :| 0 <= k < n && authors[..n][k] == a && log[..n][k] == r;
          assert authors[k] == a && log[k] == r;
        } else {
          assert authors[n] == a && log[n] == r;
        }
      }
      forall k | 0 <= k < |log| && authors[k] == a ensures log[k] in By(log, authors, a) {
        if k < n {
          assert log[..n][k] in By(log[..n], authors[..n], a);
        }
      }
    }
  }

  function PublishedBit(s: State, a: Author): nat {
    if Published(s, a) then 1 else 0
  }

  // The log holds, for each thread, the records it has inserted or just published, in order.
  ghost predicate SourceOf(s: State, a: Author)
    requires Exists(s, a) && InBounds(s.cells, s.order)
  {
    var p := Prod(s, a);
    && p.sent + PublishedBit(s, a) <= |p.script|
    && By(Log(s.cells, s.order), Authors(s.cells, s.order), a) == p.script[..p.sent + PublishedBit(s, a)]
  }

  ghost predicate Sources(s: State) {
    && InBounds(s.cells, s.order)
    && (forall k :: 0 <= k < |s.order| ==> Exists(s, Authors(s.cells, s.order)[k]))
    && (forall a :: Exists(s, a) ==> SourceOf(s, a))
  }

  // A step that publishes nothing and completes no insert.
  lemma QuietKeepsSources(s: State, t: State)
    requires Sources(s) && InBounds(t.cells, t.order) && t.order == s.order
    requires Log(t.cells, t.order) == Log(s.cells, s.order) && Authors(t.cells, t.order) == Authors(s.cells, s.order)
    requires forall a :: Exists(s, a) ==> Exists(t, a)
    requires forall a :: Exists(s, a) ==>
      && Prod(t, a).script == Prod(s, a).script
      && Prod(t, a).sent + PublishedBit(t, a) == Prod(s, a).sent + PublishedBit(s, a)
    requires forall a :: Exists(t, a) && !Exists(s, a) ==> Prod(t, a).sent + PublishedBit(t, a) == 0
    ensures Sources(t)
  {
    var log, authors := Log(s.cells, s.order), Authors(s.cells, s.order);
    forall a | Exists(t, a) ensures SourceOf(t, a) {
      if Exists(s, a) {
        assert SourceOf(s, a);
      } else {
        assert a !in authors;
        ByAbsent(log, authors, a);
      }
    }
  }

  predicate Publishes(s: State, e: Event) {
    && e.Advance? && s.lock.Held?
    && (s.lock.stage.TailSet? || (s.lock.stage.Entered? && !(s.tail == None && !e.headFirst)))
  }

  lemma PublishAppends(s: State, e: Event)
    requires Memory(s) && Enabled(s, e) && Publishes(s, e)
    ensures var t := Apply(s, e);
      var a := s.lock.who;
      var p := Prod(s, a);
      && p.sent < |p.script| && !Published(s, a) && Published(t, a)
      && InBounds(t.cells, t.order)
      && Log(t.cells, t.order) == Log(s.cells, s.order) + [p.script[p.sent]]
      && Authors(t.cells, t.order) == Authors(s.cells, s.order) + [a]
  {
    assert PendingOf(s, s.lock.who);
    LogGrows(s, e);
    var t := Apply(s, e);
    assert t.order == s.order + [s.lock.node];
  }

  lemma PublishProducer(s: State, e: Event, a: Author)
    requires Memory(s) && Enabled(s, e) && Publishes(s, e) && Exists(s, a)
    ensures var t := Apply(s, e);
      && Exists(t, a) && Prod(t, a) == Prod(s, a)
      && PublishedBit(t, a) == PublishedBit(s, a) + if a == s.lock.who then 1 else 0
  {
  }

  lemma PublishKeepsSource(s: State, e: Event, a: Author)
    requires Memory(s) && Sources(s) && Enabled(s, e) && Publishes(s, e) && Exists(s, a)
    requires InBounds(Apply(s, e).cells, Apply(s, e).order)
    ensures SourceOf(Apply(s, e), a)
  {
    var b, p := s.lock.who, Prod(s, a);
    PublishAppends(s, e);
    PublishProducer(s, e, a);
    assert SourceOf(s, a);
    BySnoc(Log(s.cells, s.order), Authors(s.cells, s.order), Prod(s, b).script[Prod(s, b).sent], b, a);
    if a == b {
      assert p.script[..p.sent + 1] == p.script[..p.sent] + [p.script[p.sent]];
    }
  }

  lemma PublishKeepsSources(s: State, e: Event)
    requires Memory(s) && Sources(s) && Enabled(s, e) && Publishes(s, e)
    ensures Sources(Apply(s, e))
  {
    var t := Apply(s, e);
    PublishAppends(s, e);
    forall a | Exists(t, a) ensures SourceOf(t, a) {
      PublishKeepsSource(s, e, a);
    }
  }

  lemma QuietStep(s: State, e: Event)
    requires Memory(s) && Enabled(s, e) && !Publishes(s, e)
    ensures var t := Apply(s, e);
      && InBounds(t.cells, t.order) && t.order == s.order
      && Log(t.cells, t.order) == Log(s.cells, s.order)
      && Authors(t.cells, t.order) == Authors(s.cells, s.order)
  {
    LogGrows(s, e);
  }

  // Completing an insert only moves a record from published to sent.
  lemma QuietAdvance(s: State, headFirst: bool, a: Author)
    requires Memory(s) && Enabled(s, Advance(headFirst)) && !Publishes(s, Advance(headFirst))
    requires Exists(s, a)
    ensures var t := Apply(s, Advance(headFirst));
      && Exists(t, a) && |t.handlers| == |s.handlers|
      && Prod(t, a).script == Prod(s, a).script
      && Prod(t, a).sent + PublishedBit(t, a) == Prod(s, a).sent + PublishedBit(s, a)
  {
  }

  // Outside the critical section a thread's inserts do not change, and a new thread has made none.
  lemma IdleProducer(s: State, e: Event, a: Author)
    requires Memory(s) && Enabled(s, e) && !e.Advance? && Exists(Apply(s, e), a)
    ensures var t := Apply(s, e);
      if Exists(s, a) then
        && Prod(t, a).script == Prod(s, a).script && Prod(t, a).sent == Prod(s, a).sent
        && PublishedBit(t, a) == PublishedBit(s, a)
      else Prod(t, a).sent == 0 && PublishedBit(t, a) == 0
  {
  }

  lemma QuietProducer(s: State, e: Event, a: Author)
    requires Memory(s) && Enabled(s, e) && !Publishes(s, e) && Exists(Apply(s, e), a)
    ensures var t := Apply(s, e);
      if Exists(s, a) then
        && Prod(t, a).script == Prod(s, a).script
        && Prod(t, a).sent + PublishedBit(t, a) == Prod(s, a).sent + PublishedBit(s, a)
      else Prod(t, a).sent + PublishedBit(t, a) == 0
  {
    match e
    case Advance(headFirst) => QuietAdvance(s, headFirst, a);
    case _ => IdleProducer(s, e, a);
  }

  lemma StepKeepsSources(s: State, e: Event)
    requires Memory(s) && Sources(s) && Enabled(s, e)
    ensures Sources(Apply(s, e))
  {
    if Publishes(s, e) {
      PublishKeepsSources(s, e);
    } else {
      var t := Apply(s, e);
      QuietStep(s, e);
      assert |t.handlers| >= |s.handlers|;
      forall a | Exists(t, a)
        ensures Exists(s, a) ==>
          && Prod(t, a).script == Prod(s, a).script
          && Prod(t, a).sent + PublishedBit(t, a) == Prod(s, a).sent + PublishedBit(s, a)
        ensures !Exists(s, a) ==> Prod(t, a).sent + PublishedBit(t, a) == 0
      {
        QuietProducer(s, e, a);
      }
      QuietKeepsSources(s, t);
    }
  }

  // ---- The end marker ----

  // Only the last record of the log can be the listener's.
  ghost predicate MarkerLast(s: State)
    requires InBounds(s.cells, s.order)
  {
    forall k :: 0 <= k < |s.order| && Authors(s.cells, s.order)[k].Listener? ==> k == |s.order| - 1
  }

  lemma MarkerMeansClosed(s: State, k: nat)
    requires Sources(s) && Ordered(s)
    requires k < |s.order| && Authors(s.cells, s.order)[k].Listener?
    ensures s.marker.sent + PublishedBit(s, Listener) == 1
  {
    var log, authors := Log(s.cells, s.order), Authors(s.cells, s.order);
    assert SourceOf(s, Listener);
    ByMembers(log, authors, Listener);
    assert log[k] in By(log, authors, Listener);
  }

  lemma StepKeepsMarkerLast(s: State, e: Event)
    requires Memory(s) && Sources(s) && Ordered(s) && Counted(s) && MarkerLast(s) && Enabled(s, e)
    requires InBounds(Apply(s, e).cells, Apply(s, e).order)
    ensures MarkerLast(Apply(s, e))
  {
    var authors := Authors(s.cells, s.order);
    if Publishes(s, e) {
      PublishAppends(s, e);
      if k :| 0 <= k < |s.order| && authors[k].Listener? {
        MarkerMeansClosed(s, k);
        AllGone(s);
        assert false;
      }
    } else {
      QuietStep(s, e);
    }
  }
}
