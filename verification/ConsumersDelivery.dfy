/** What every execution conserves: which records are in the file, in a reader's hands, in the queue. */
module ConsumersDelivery {
  import opened Records
  import opened Executions
  import opened Consumers

  function Unread(s: State): seq<Record> {
    if s.next <= |s.input| then s.input[s.next..] else []
  }

  // The readings removed, queued and not yet inserted are, in this order, the readings of the input.
  ghost predicate OrderKept(s: State) {
    && s.next <= |s.input| + 1
    && Recs(s.taken) + Data(s.queue) + Data(Unread(s)) == Data(s.input)
  }

  // Each reader has written everything it removed, in order, except what it still holds.
  ghost predicate SharesKept(s: State) {
    && (forall i :: 0 <= i < |s.readers| ==> Mine(s.rows, i) + Held(s.readers[i]) == Mine(s.taken, i))
    && (forall k :: 0 <= k < |s.rows| ==> s.rows[k].who < |s.readers|)
    && (forall k :: 0 <= k < |s.taken| ==> s.taken[k].who < |s.readers|)
  }

  ghost predicate BagKept(s: State) {
    multiset(Recs(s.rows)) + HeldBag(s.readers) == multiset(Recs(s.taken))
  }

  ghost predicate Conserved(s: State) {
    OrderKept(s) && SharesKept(s) && BagKept(s)
  }

  lemma BagShift(first: multiset<Record>, rest': multiset<Record>, before: multiset<Record>,
                 rest: multiset<Record>, after: multiset<Record>)
    requires rest' + before == rest + after
    ensures (first + rest') + before == (first + rest) + after
  {
    assert (first + rest') + before == first + (rest' + before);
    assert (first + rest) + after == first + (rest + after);
  }

  // Replacing one reader exchanges what it held.
  lemma {:induction false} HeldBagUpdate(rs: seq<Reader>, i: nat, r: Reader)
    requires i < |rs|
    ensures HeldBag(rs[i := r]) + multiset(Held(rs[i])) == HeldBag(rs) + multiset(Held(r))
  {
    HeldBagFirst(rs[i := r]);
    HeldBagFirst(rs);
    if i == 0 {
      assert rs[i := r][1..] == rs[1..];
      Exchange(multiset(Held(r)), multiset(Held(rs[0])), HeldBag(rs[1..]));
    } else {
      assert rs[i := r][1..] == rs[1..][i - 1 := r];
      HeldBagUpdate(rs[1..], i - 1, r);
      BagShift(multiset(Held(rs[0])), HeldBag(rs[1..][i - 1 := r]), multiset(Held(rs[i])),
               HeldBag(rs[1..]), multiset(Held(r)));
    }
  }

  lemma HeldBagFirst(rs: seq<Reader>)
    requires rs != []
    ensures HeldBag(rs) == multiset(Held(rs[0])) + HeldBag(rs[1..])
  {
  }

  lemma Exchange(a: multiset<Record>, b: multiset<Record>, c: multiset<Record>)
    ensures (a + c) + b == (b + c) + a
  {
  }

  lemma {:induction false} HeldBagSize(rs: seq<Reader>)
    ensures |HeldBag(rs)| <= |rs|
  {
    if rs != [] {
      HeldBagSize(rs[1..]);
    }
  }

  lemma {:induction false} HeldBagEmpty(rs: seq<Reader>)
    requires forall i :: 0 <= i < |rs| ==> Held(rs[i]) == []
    ensures HeldBag(rs) == multiset{}
  {
    if rs != [] {
      forall i | 0 <= i < |rs[1..]| ensures Held(rs[1..][i]) == [] {
        assert rs[1..][i] == rs[i + 1];
      }
      HeldBagEmpty(rs[1..]);
    }
  }

  lemma {:induction false} MineSnoc(ts: seq<Tagged>, t: Tagged, i: nat)
    ensures Mine(ts + [t], i) == if t.who == i then Mine(ts, i) + [t.rec] else Mine(ts, i)
  {
    if ts == [] {
      assert ts + [t] == [t] && [t][1..] == [];
    } else {
      assert (ts + [t])[1..] == ts[1..] + [t];
      MineSnoc(ts[1..], t, i);
    }
  }

  lemma RecsSnoc(ts: seq<Tagged>, t: Tagged)
    ensures Recs(ts + [t]) == Recs(ts) + [t.rec]
  {
  }

  // A signal changes what no reader holds.
  lemma SignalKeeps(rs: seq<Reader>, w: nat)
    ensures |Signal(rs, w)| == |rs| && HeldBag(Signal(rs, w)) == HeldBag(rs)
    ensures forall i :: 0 <= i < |rs| ==> Held(Signal(rs, w)[i]) == Held(rs[i])
  {
    if w < |rs| && rs[w].Waiting? {
      HeldBagUpdate(rs, w, Woken);
      assert multiset(Held(rs[w])) == multiset{} == multiset(Held(Woken));
      assert HeldBag(rs[w := Woken]) + multiset{} == HeldBag(rs) + multiset{};
      assert HeldBag(rs) + multiset{} == HeldBag(rs);
    }
  }

  lemma StartConserves(input: seq<Record>, n: nat)
    ensures Conserved(Start(input, n))
  {
    var s := Start(input, n);
    assert Unread(s) == input;
    assert Recs(s.taken) + Data(s.queue) + Data(Unread(s)) == Data(input);
    HeldBagEmpty(s.readers);
  }

  lemma ProduceKeepsOrder(s: State, rec: Record, w: nat)
    requires OrderKept(s) && Enabled(s, Produce(rec, w))
    ensures OrderKept(Apply(s, Produce(rec, w)))
  {
    var t := Apply(s, Produce(rec, w));
    DataSnoc(s.queue, rec);
    if s.next < |s.input| {
      assert Unread(s) == [rec] + Unread(t);
      DataConcat([rec], Unread(t));
      assert Data([rec]) == if IsMarker(rec) then [] else [rec];
    }
    assert Recs(s.taken) + Data(s.queue) + Data(Unread(s)) == Recs(s.taken) + Data(t.queue) + Data(Unread(t));
  }

  lemma TakeKeepsOrder(s: State, i: nat)
    requires OrderKept(s) && Enabled(s, Take(i))
    ensures OrderKept(Apply(s, Take(i)))
  {
    var t := Apply(s, Take(i));
    var rec := s.queue[0];
    var came := if IsMarker(rec) then [] else [rec];
    assert Data(s.queue) == came + Data(t.queue);
    assert Recs(t.taken) == Recs(s.taken) + came;
    Reassociate(Recs(s.taken), came, Data(t.queue), Data(Unread(s)));
  }

  lemma Reassociate(a: seq<Record>, b: seq<Record>, c: seq<Record>, d: seq<Record>)
    ensures a + (b + c) + d == (a + b) + c + d
  {
  }

  lemma StepKeepsOrder(s: State, e: Event)
    requires OrderKept(s) && HandsAreMarkers(s) && Enabled(s, e)
    ensures OrderKept(Apply(s, e))
  {
    match e
    case Produce(rec, w) => ProduceKeepsOrder(s, rec, w);
    case Take(i) => TakeKeepsOrder(s, i);
    case Reinsert(i, w) => DataSnoc(s.queue, s.readers[i].rec);
    case _ =>
  }

  // The reader that moves, and where it goes, apart from any waiter it signals.
  function Moved(s: State, e: Event): seq<Reader>
    requires Enabled(s, e)
  {
    match e
    case Produce(rec, w) => s.readers
    case Take(i) => s.readers[i := Holding(s.queue[0])]
    case Block(i) => s.readers[i := Waiting]
    case Spurious(i) => s.readers[i := Woken]
    case Write(i) => s.readers[i := Removing]
    case Load(i) => s.readers[i := Loaded(s.readers[i].rec, s.eos)]
    case Store(i) => s.readers[i := Stored(s.readers[i].rec)]
    case Test(i) =>
      s.readers[i := if s.eos < |s.readers| then Reinserting(s.readers[i].rec) else Exited]
    case Reinsert(i, w) => s.readers[i := Exited]
  }

  lemma TakeKeepsShare(s: State, i: nat, j: nat)
    requires Enabled(s, Take(i)) && j < |s.readers|
    requires Mine(s.rows, j) + Held(s.readers[j]) == Mine(s.taken, j)
    ensures var t := Apply(s, Take(i)); Mine(t.rows, j) + Held(t.readers[j]) == Mine(t.taken, j)
  {
    MineSnoc(s.taken, Tagged(i, s.queue[0]), j);
  }

  lemma WriteKeepsShare(s: State, i: nat, j: nat)
    requires Enabled(s, Write(i)) && j < |s.readers|
    requires Mine(s.rows, j) + Held(s.readers[j]) == Mine(s.taken, j)
    ensures var t := Apply(s, Write(i)); Mine(t.rows, j) + Held(t.readers[j]) == Mine(t.taken, j)
  {
    MineSnoc(s.rows, Tagged(i, s.readers[i].rec), j);
  }

  // Events other than taking and writing leave every reader's reading where it is.
  lemma OthersKeepHands(s: State, e: Event, j: nat)
    requires HandsAreMarkers(s) && Enabled(s, e) && !e.Take? && !e.Write? && j < |s.readers|
    ensures var t := Apply(s, e);
      t.rows == s.rows && t.taken == s.taken && |t.readers| == |s.readers| && Held(t.readers[j]) == Held(s.readers[j])
  {
  }

  lemma StepKeepsShare(s: State, e: Event, j: nat)
    requires HandsAreMarkers(s) && Enabled(s, e) && j < |s.readers|
    requires Mine(s.rows, j) + Held(s.readers[j]) == Mine(s.taken, j)
    ensures var t := Apply(s, e); j < |t.readers| && Mine(t.rows, j) + Held(t.readers[j]) == Mine(t.taken, j)
  {
    match e
    case Take(i) => TakeKeepsShare(s, i, j);
    case Write(i) => WriteKeepsShare(s, i, j);
    case _ => OthersKeepHands(s, e, j);
  }

  lemma StepKeepsShares(s: State, e: Event)
    requires SharesKept(s) && HandsAreMarkers(s) && Enabled(s, e)
    ensures SharesKept(Apply(s, e))
  {
    var t := Apply(s, e);
    forall j | 0 <= j < |t.readers| ensures Mine(t.rows, j) + Held(t.readers[j]) == Mine(t.taken, j) {
      StepKeepsShare(s, e, j);
    }
  }

  // The balance of file, hands and removed readings, moved by a record that changes place.
  lemma Rebalance(rows: multiset<Record>, held: multiset<Record>, held': multiset<Record>, taken: multiset<Record>,
                  gone: multiset<Record>, come: multiset<Record>)
    requires rows + held == taken && held' + gone == held + come
    ensures (rows + gone) + held' == taken + come
  {
    assert (rows + gone) + held' == rows + (held' + gone);
    assert rows + (held + come) == (rows + held) + come;
  }

  lemma StepKeepsBag(s: State, e: Event)
    requires BagKept(s) && HandsAreMarkers(s) && Enabled(s, e)
    ensures BagKept(Apply(s, e))
  {
    var t := Apply(s, e);
    var us := Moved(s, e);
    HeldAfter(s, e);
    if !e.Produce? {
      var gone, come := multiset(Held(s.readers[e.i])), multiset(Held(us[e.i]));
      HeldBagUpdate(s.readers, e.i, us[e.i]);
      Rebalance(multiset(Recs(s.rows)), HeldBag(s.readers), HeldBag(us), multiset(Recs(s.taken)), gone, come);
      TakenAfter(s, e);
      RowsAfter(s, e);
    }
  }

  lemma HeldAfter(s: State, e: Event)
    requires Enabled(s, e)
    ensures HeldBag(Apply(s, e).readers) == HeldBag(Moved(s, e))
  {
    match e
    case Produce(rec, w) => SignalKeeps(s.readers, w);
    case Reinsert(i, w) => SignalKeeps(Moved(s, e), w);
    case _ =>
  }

  lemma TakenAfter(s: State, e: Event)
    requires Enabled(s, e) && !e.Produce?
    ensures Recs(Apply(s, e).taken) == Recs(s.taken) + Held(Moved(s, e)[e.i])
  {
    if e.Take? {
      RecsSnoc(s.taken, Tagged(e.i, s.queue[0]));
    }
  }

  lemma RowsAfter(s: State, e: Event)
    requires HandsAreMarkers(s) && Enabled(s, e) && !e.Produce?
    ensures Recs(Apply(s, e).rows) == Recs(s.rows) + Held(s.readers[e.i])
  {
    if e.Write? {
      RecsSnoc(s.rows, Tagged(e.i, s.readers[e.i].rec));
    }
  }

  // The records that take the marker branch are markers.
  ghost predicate HandsAreMarkers(s: State) {
    forall i :: 0 <= i < |s.readers| ==>
      var r := s.readers[i];
      (r.Loaded? || r.Stored? || r.Reinserting?) ==> IsMarker(r.rec)
  }

  lemma StepConserves(s: State, e: Event)
    requires Conserved(s) && HandsAreMarkers(s) && Enabled(s, e)
    ensures Conserved(Apply(s, e))
  {
    StepKeepsOrder(s, e);
    StepKeepsShares(s, e);
    StepKeepsBag(s, e);
  }

  lemma StepKeepsHands(s: State, e: Event)
    requires HandsAreMarkers(s) && Enabled(s, e)
    ensures HandsAreMarkers(Apply(s, e))
  {
  }

  // The input file and the number of reader threads never change.
  lemma StepKeepsSetup(s: State, e: Event)
    requires Enabled(s, e)
    ensures Apply(s, e).input == s.input && |Apply(s, e).readers| == |s.readers|
  {
  }

  lemma ReachableConserved(input: seq<Record>, n: nat, t: State)
    requires Reachable(input, n, t)
    ensures Conserved(t) && HandsAreMarkers(t) && t.input == input && |t.readers| == n
  {
    var es :| Execution(Next, Start(input, n), es, t);
    StartConserves(input, n);
    var inv := (s: State) => Conserved(s) && HandsAreMarkers(s) && s.input == input && |s.readers| == n;
    forall u, e | inv(u) && Next(u, e).Some? ensures inv(Next(u, e).value) {
      StepConserves(u, e);
      StepKeepsHands(u, e);
      StepKeepsSetup(u, e);
    }
    Induction(Next, inv, Start(input, n), es, t);
  }

  // ---- What a reader can rely on ----

  // sub is s restricted to the strictly increasing positions idx.
  ghost predicate SelectedBy(sub: seq<Record>, s: seq<Record>, idx: seq<nat>) {
    && |idx| == |sub|
    && (forall j :: 0 <= j < |idx| ==> idx[j] < |s| && s[idx[j]] == sub[j])
    && (forall j, k :: 0 <= j < k < |idx| ==> idx[j] < idx[k])
  }

  ghost predicate Subsequence(sub: seq<Record>, s: seq<Record>) {
    exists idx: seq<nat> :: SelectedBy(sub, s, idx)
  }

  lemma {:induction false} MineIsSubsequence(ts: seq<Tagged>, i: nat)
    ensures Subsequence(Mine(ts, i), Recs(ts))
  {
    if ts == [] {
      assert SelectedBy(Mine(ts, i), Recs(ts), []);
    } else {
      var init, last := ts[..|ts| - 1], ts[|ts| - 1];
      assert ts == init + [last];
      MineIsSubsequence(init, i);
      MineSnoc(init, last, i);
      RecsSnoc(init, last);
      SubsequenceSnoc(Mine(init, i), Recs(init), last.rec);
    }
  }

  lemma SubsequenceSnoc(sub: seq<Record>, s: seq<Record>, r: Record)
    requires Subsequence(sub, s)
    ensures Subsequence(sub, s + [r]) && Subsequence(sub + [r], s + [r])
  {
    var idx: seq<nat> :| SelectedBy(sub, s, idx);
    assert SelectedBy(sub, s + [r], idx);
    assert SelectedBy(sub + [r], s + [r], idx + [|s|]);
  }

  lemma PrefixIsSubsequence(a: seq<Record>, b: seq<Record>, s: seq<Record>)
    requires a <= b && Subsequence(b, s)
    ensures Subsequence(a, s)
  {
    var idx: seq<nat> :| SelectedBy(b, s, idx);
    assert SelectedBy(a, s, idx[..|a|]);
  }

  lemma SubsequenceOfPrefix(a: seq<Record>, p: seq<Record>, s: seq<Record>)
    requires p <= s && Subsequence(a, p)
    ensures Subsequence(a, s)
  {
    var idx: seq<nat> :| SelectedBy(a, p, idx);
    assert SelectedBy(a, s, idx);
  }

  /** At every moment the file plus the readers' hands hold, as a multiset, exactly the readings
      that have left the queue; these are a prefix of the readings of the input, at most one per
      reader is in flight, and each reader writes its readings in input order. */
  lemma InFlight(input: seq<Record>, n: nat, s: State)
    requires Reachable(input, n, s)
    ensures multiset(Recs(s.rows)) + HeldBag(s.readers) == multiset(Recs(s.taken))
    ensures Recs(s.taken) <= Data(input)
    ensures |HeldBag(s.readers)| <= n
    ensures forall i :: 0 <= i < n ==> Subsequence(Mine(s.rows, i), Data(input))
    ensures forall k :: 0 <= k < |s.rows| ==> s.rows[k].who < n
  {
    ReachableConserved(input, n, s);
    HeldBagSize(s.readers);
    forall i | 0 <= i < n ensures Subsequence(Mine(s.rows, i), Data(input)) {
      MineIsSubsequence(s.taken, i);
      PrefixIsSubsequence(Mine(s.rows, i), Mine(s.taken, i), Recs(s.taken));
      SubsequenceOfPrefix(Mine(s.rows, i), Recs(s.taken), Data(input));
    }
  }
}
