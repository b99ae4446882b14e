/**
 The buffer of both programs on the heap: a singly linked chain with head and tail pointers. Each
 method is one critical section, run alone; the unlocked reads of the gateway are interleaved with
 inserts in module Gateway.
 */
module SharedBuffer {
  import opened Records

  class Node {
    var next: Node?
    var data: Record

    constructor (data: Record)
      ensures this.data == data && next == null
    {
      this.data := data;
      next := null;
    }
  }

  ghost function After(ns: seq<Node>, i: nat): Node? {
    if i + 1 < |ns| then ns[i + 1] else null
  }

  class Buffer {
    var head: Node?
    var tail: Node?
    ghost var contents: seq<Record>  // the queued records
    ghost var nodes: seq<Node>       // the chain from head to tail
    ghost var live: set<Node>        // nodes obtained from malloc and not freed
    ghost var signals: nat           // calls of pthread_cond_signal
    ghost var released: bool         // the buffer itself has been freed

    ghost predicate Valid()
      reads this, nodes
    {
      && !released
      && (forall i, j :: 0 <= i < j < |nodes| ==> nodes[i] != nodes[j])
      && (nodes == [] ==> head == null && tail == null)
      && (nodes != [] ==> head == nodes[0] && tail == nodes[|nodes| - 1])
      && (forall i :: 0 <= i < |nodes| ==> nodes[i].next == After(nodes, i))
      && live == (set n | n in nodes)
      && |contents| == |nodes|
      && (forall i :: 0 <= i < |nodes| ==> nodes[i].data == contents[i])
    }

    constructor ()
      ensures Valid() && contents == [] && live == {} && signals == 0
    {
      head, tail := null, null;
      contents, nodes, live, signals, released := [], [], {}, 0, false;
    }

    // free(n): a node is released at most once.
    ghost method Free(n: Node)
      requires n in live
      modifies this`live
      ensures live == old(live) - {n}
    {
      live := live - {n};
    }

    method Insert(rec: Record)
      requires Valid()
      modifies this, live
      ensures Valid()
      ensures fresh(live - old(live))
      ensures contents == old(contents) + [rec]
      ensures old(nodes) <= nodes
      ensures signals == old(signals) + 1
    {
      var dummy := new Node(rec);
      if tail == null {
        tail := dummy;
        head := dummy;
      } else {
        tail.next := dummy;
        tail := tail.next;
      }
      contents := contents + [rec];
      nodes := nodes + [dummy];
      live := live + {dummy};
      signals := signals + 1;
    }

    // One pass through sbuffer_remove's wait loop: None where the caller goes to sleep.
    method Remove() returns (r: Option<Record>)
      requires Valid()
      modifies this
      ensures Valid() && signals == old(signals)
      ensures old(contents) == [] ==> r == None && live == old(live) && contents == []
      ensures old(contents) != [] ==>
        && r == Some(old(contents)[0])
        && contents == old(contents)[1..]
        && live == old(live) - {old(head)}
    {
      if head == null {
        return None;
      }
      r := Some(head.data);
      var dummy := head;
      if head == tail {
        tail := null;
        head := tail;
      } else {
        head := head.next;
      }
      Free(dummy);
      contents := contents[1..];
      nodes := nodes[1..];
      assert forall i :: 0 <= i < |nodes| ==> nodes[i] == old(nodes)[i + 1];
    }

    // A reader's cursor: null, or the node it read last.
    ghost predicate IsCursor(node: Node?)
      reads this
    {
      node == null || node in nodes
    }

    // How many records the reader behind the cursor has seen.
    ghost function Seen(node: Node?): (k: nat)
      requires IsCursor(node)
      reads this
      ensures k <= |nodes|
      ensures node == null ==> k == 0
      ensures node != null ==> k > 0 && nodes[k - 1] == node
    {
      if node == null then 0 else var i :| 0 <= i < |nodes| && nodes[i] == node; i + 1
    }

    // sbuffer_read: the next unseen record, or None (SBUFFER_EMPTY) with the cursor left alone.
    method Read(node: Node?) returns (r: Option<Record>, next: Node?)
      requires Valid() && IsCursor(node)
      ensures IsCursor(next)
      ensures Seen(node) < |contents| ==> r == Some(contents[Seen(node)]) && Seen(next) == Seen(node) + 1
      ensures Seen(node) == |contents| ==> r == None && next == node
    {
      if head == null {
        return None, node;
      }
      ghost var k := Seen(node);
      if node == null {
        return Some(head.data), head;
      }
      assert node.next == After(nodes, k - 1);
      if node.next != null {
        return Some(node.next.data), node.next;
      }
      return None, node;
    }

    // Every node of the chain is freed, none of them twice, and then the buffer.
    method Release()
      requires Valid()
      modifies this
      ensures head == null && live == {} && released
    {
      ghost var k := 0;
      while head != null
        invariant k <= |nodes| && nodes == old(nodes)
        invariant head == if k < |nodes| then nodes[k] else null
        invariant live == set i | k <= i < |nodes| :: nodes[i]
        decreases |nodes| - k
      {
        var dummy := head;
        assert nodes[k].next == After(nodes, k);
        head := head.next;
        Free(dummy);
        k := k + 1;
      }
      released := true;
    }
  }

  // ---- The functions as called, with a pointer that may be NULL ----

  ghost function Footprint(buffer: Buffer?): set<object>
    reads buffer
  {
    if buffer == null then {} else {buffer} + buffer.live
  }

  datatype Status = Success | Failure | Asleep

  method InsertInto(buffer: Buffer?, rec: Record) returns (status: Status)
    requires buffer != null ==> buffer.Valid()
    modifies Footprint(buffer)
    ensures status == if buffer == null then Failure else Success
    ensures buffer != null ==> buffer.Valid() && buffer.contents == old(buffer.contents) + [rec]
  {
    if buffer == null {
      return Failure;
    }
    buffer.Insert(rec);
    return Success;
  }

  // Asleep: the caller waits for an insert.
  method RemoveFrom(buffer: Buffer?) returns (status: Status, data: Option<Record>)
    requires buffer != null ==> buffer.Valid()
    modifies Footprint(buffer)
    ensures status == Failure <==> buffer == null
    ensures status == Success <==> data.Some?
    ensures buffer != null ==>
      && buffer.Valid()
      && (status == Asleep <==> old(buffer.contents) == [])
      && old(buffer.contents) == (if data.Some? then [data.value] else []) + buffer.contents
  {
    if buffer == null {
      return Failure, None;
    }
    data := buffer.Remove();
    status := if data.Some? then Success else Asleep;
  }

  method FreeBuffer(buffer: Buffer?) returns (status: Status, left: Buffer?)
    requires buffer != null ==> buffer.Valid()
    modifies Footprint(buffer)
    ensures left == null && status == if buffer == null then Failure else Success
    ensures buffer != null ==> buffer.live == {} && buffer.released
  {
    if buffer == null {
      return Failure, null;
    }
    buffer.Release();
    return Success, null;
  }

  // The chain has one node exactly when head and tail meet, and is empty exactly when either is null.
  lemma EndsTellSize(q: Buffer)
    requires q.Valid()
    ensures q.head == null <==> q.contents == []
    ensures q.tail == null <==> q.contents == []
    ensures q.head == q.tail && q.head != null <==> |q.contents| == 1
    ensures q.tail != null ==> q.tail.next == null
  {
    assert q.nodes != [] ==> q.nodes[|q.nodes| - 1].next == null;
  }

  datatype Op = Put(rec: Record) | Get

  // What a queue of records does on a sequence of operations: what is left, and what each Get saw.
  function Fifo(q: seq<Record>, ops: seq<Op>): (seq<Record>, seq<Option<Record>>)
    decreases |ops|
  {
    if ops == [] then (q, [])
    else
      match ops[0]
      case Put(rec) => Fifo(q + [rec], ops[1..])
      case Get =>
        if q == [] then
          var (rest, seen) := Fifo(q, ops[1..]);
          (rest, [None] + seen)
        else
          var (rest, seen) := Fifo(q[1..], ops[1..]);
          (rest, [Some(q[0])] + seen)
  }

  method Replay(q: Buffer, ops: seq<Op>) returns (seen: seq<Option<Record>>)
    requires q.Valid()
    modifies q, q.live
    ensures q.Valid()
    ensures (q.contents, seen) == Fifo(old(q.contents), ops)
  {
    seen := [];
    ghost var goal := Fifo(q.contents, ops);
    assert ops[0..] == ops;
    assert [] + goal.1 == goal.1;
    for i := 0 to |ops|
      invariant q.Valid()
      invariant fresh(q.live - old(q.live))
      invariant goal == Along(q.contents, seen, ops[i..])
    {
      ghost var c := q.contents;
      assert ops[i..][0] == ops[i] && ops[i..][1..] == ops[i + 1..];
      match ops[i]
      case Put(rec) =>
        q.Insert(rec);
      case Get =>
        var r := q.Remove();
        AlongGet(c, seen, ops[i..]);
        seen := seen + [r];
    }
    assert seen + [] == seen;
    assert goal == (q.contents, seen);
  }

  // Fifo, after the answers seen so far.
  ghost function Along(q: seq<Record>, seen: seq<Option<Record>>, ops: seq<Op>): (seq<Record>, seq<Option<Record>>) {
    (Fifo(q, ops).0, seen + Fifo(q, ops).1)
  }

  lemma AlongGet(q: seq<Record>, seen: seq<Option<Record>>, ops: seq<Op>)
    requires ops != [] && ops[0].Get?
    ensures Along(q, seen, ops) ==
      if q == [] then Along(q, seen + [None], ops[1..]) else Along(q[1..], seen + [Some(q[0])], ops[1..])
  {
    var r := if q == [] then None else Some(q[0]);
    var later := Fifo(if q == [] then q else q[1..], ops[1..]).1;
    assert seen + ([r] + later) == (seen + [r]) + later;
  }

  function Removed(seen: seq<Option<Record>>): seq<Record> {
    if seen == [] then [] else (if seen[0].Some? then [seen[0].value] else []) + Removed(seen[1..])
  }

  function Inserted(ops: seq<Op>): seq<Record> {
    if ops == [] then [] else (if ops[0].Put? then [ops[0].rec] else []) + Inserted(ops[1..])
  }

  /** First in, first out, over any mix of operations: the removed records followed by what is left
      are the initial contents followed by the inserted records. */
  lemma {:induction false} FifoOrder(q: seq<Record>, ops: seq<Op>)
    ensures var (rest, seen) := Fifo(q, ops); Removed(seen) + rest == q + Inserted(ops)
    decreases |ops|
  {
    if ops != [] {
      match ops[0]
      case Put(rec) =>
        FifoOrder(q + [rec], ops[1..]);
        Associative(q, [rec], Inserted(ops[1..]));
      case Get =>
        var q' := if q == [] then q else q[1..];
        FifoOrder(q', ops[1..]);
        FifoOrderGet(q, ops, q');
    }
  }

  lemma FifoOrderGet(q: seq<Record>, ops: seq<Op>, q': seq<Record>)
    requires ops != [] && ops[0].Get? && q' == if q == [] then q else q[1..]
    requires Removed(Fifo(q', ops[1..]).1) + Fifo(q', ops[1..]).0 == q' + Inserted(ops[1..])
    ensures Removed(Fifo(q, ops).1) + Fifo(q, ops).0 == q + Inserted(ops)
  {
    var rest, later := Fifo(q', ops[1..]).0, Fifo(q', ops[1..]).1;
    var r := if q == [] then None else Some(q[0]);
    assert Fifo(q, ops) == (rest, [r] + later);
    RemovedCons(r, later);
    assert [] + Inserted(ops[1..]) == Inserted(ops[1..]);
    if q == [] {
      assert [] + Removed(later) == Removed(later);
    } else {
      Associative([q[0]], Removed(later), rest);
      Associative([q[0]], q', Inserted(ops[1..]));
      assert q == [q[0]] + q';
    }
  }

  lemma RemovedCons(r: Option<Record>, later: seq<Option<Record>>)
    ensures Removed([r] + later) == (if r.Some? then [r.value] else []) + Removed(later)
  {
    assert ([r] + later)[1..] == later;
  }

  // ---- The thread bodies, run without interference ----

  method WriterThread(q: Buffer, file: seq<Record>, scratch: Record)
    requires q.Valid()
    modifies q, q.live
    ensures q.Valid()
    ensures q.contents ==
      old(q.contents) + file + [(if file == [] then scratch else file[|file| - 1]).(id := 0)]
  {
    var record := scratch;
    ghost var before := q.contents;
    for i := 0 to |file|
      invariant q.Valid()
      invariant fresh(q.live - old(q.live))
      invariant q.contents == before + file[..i]
      invariant record == if i == 0 then scratch else file[i - 1]
    {
      record := file[i];
      q.Insert(record);
      TakeOneMore(before, file, i);
    }
    assert file[..|file|] == file;
    record := record.(id := 0);
    q.Insert(record);
  }

  class EosCounter {
    var count: int
  }

  // A thread has consumed rows of all, then got last; rest is what follows.
  ghost predicate Consumed(all: seq<Record>, rows: seq<Record>, last: Option<Record>, rest: seq<Record>) {
    && MarkerFree(rows)
    && rows <= all
    && match last
       case None => rows == all && rest == []
       case Some(r) => |rows| < |all| && r == all[|rows|] && rest == all[|rows| + 1..]
  }

  lemma ConsumeMore(all: seq<Record>, rows: seq<Record>, r: Record, rest: seq<Record>)
    requires Consumed(all, rows, Some(r), rest) && !IsMarker(r)
    ensures rest == [] ==> Consumed(all, rows + [r], None, [])
    ensures rest != [] ==> Consumed(all, rows + [r], Some(rest[0]), rest[1..])
  {
    assert rows + [r] == all[..|rows| + 1];
  }

  lemma ConsumedUpTo(all: seq<Record>, rows: seq<Record>, last: Option<Record>, rest: seq<Record>)
    requires Consumed(all, rows, last, rest) && (last.Some? ==> IsMarker(last.value))
    ensures rows == BeforeMarker(all)
    ensures MarkerFree(all) <==> last == None
  {
    assert all[..|rows|] == rows;
    BeforeMarkerAt(all, |rows|);
  }

  // The reader's loop up to its exit: the rows written, and the marker unless the thread falls asleep.
  method WriteUntilMarker(q: Buffer) returns (rows: seq<Record>, last: Option<Record>)
    requires q.Valid()
    modifies q, q.live
    ensures q.Valid() && q.live <= old(q.live)
    ensures Consumed(old(q.contents), rows, last, q.contents) && (last.Some? ==> IsMarker(last.value))
  {
    rows := [];
    ghost var all := q.contents;
    last := q.Remove();
    while last.Some? && last.value.id != 0
      invariant q.Valid() && q.live <= old(q.live)
      invariant Consumed(all, rows, last, q.contents)
      decreases |all| - |rows|
    {
      ConsumeMore(all, rows, last.value, q.contents);
      rows := rows + [last.value];
      last := q.Remove();
    }
  }

  // blocked: the thread sleeps in sbuffer_remove, every record it saw written.
  method ReaderThread(q: Buffer, eos: EosCounter, numReaders: nat) returns (rows: seq<Record>, blocked: bool)
    requires q.Valid()
    modifies q, q.live, eos
    ensures q.Valid()
    ensures rows == BeforeMarker(old(q.contents))
    ensures blocked <==> MarkerFree(old(q.contents))
    ensures blocked ==> q.contents == [] && eos.count == old(eos.count)
    ensures !blocked ==>
      && eos.count == old(eos.count) + 1
      && |rows| < |old(q.contents)|
      && q.contents == old(q.contents)[|rows| + 1..] +
           (if eos.count < numReaders then [old(q.contents)[|rows|]] else [])
  {
    ghost var all := q.contents;
    var last;
    rows, last := WriteUntilMarker(q);
    blocked := last == None;
    ConsumedUpTo(all, rows, last, q.contents);
    if !blocked {
      eos.count := eos.count + 1;
      if eos.count < numReaders {
        q.Insert(last.value);
      }
    }
  }

  // The loop of open_db up to its exit; last is None where the thread would poll for ever.
  method ReadUntilMarker(q: Buffer) returns (rows: seq<Record>, last: Option<Record>)
    requires q.Valid()
    ensures last.Some? ==> |rows| < |q.contents| && IsMarker(last.value)
    ensures Consumed(q.contents, rows, last, if last.Some? then q.contents[|rows| + 1..] else [])
  {
    rows := [];
    var node: Node? := null;
    last, node := q.Read(node);
    while last.Some? && last.value.id != 0
      invariant q.IsCursor(node)
      invariant last.Some? ==> |rows| < |q.contents| && q.Seen(node) == |rows| + 1
      invariant Consumed(q.contents, rows, last, if last.Some? then q.contents[|rows| + 1..] else [])
      decreases |q.contents| - |rows|
    {
      ConsumeMore(q.contents, rows, last.value, q.contents[|rows| + 1..]);
      rows := rows + [last.value];
      last, node := q.Read(node);
    }
  }

  // polling: the thread reads SBUFFER_EMPTY for ever, every record it saw written.
  method DatabaseThread(q: Buffer, eos: EosCounter) returns (rows: seq<Record>, polling: bool)
    requires q.Valid()
    modifies q, q.live, eos
    ensures q.Valid()
    ensures rows == BeforeMarker(old(q.contents))
    ensures polling <==> MarkerFree(old(q.contents))
    ensures eos.count == old(eos.count) + if polling then 0 else 1
    ensures polling || old(eos.count) >= 0 ==> q.contents == old(q.contents)
    ensures !polling && old(eos.count) < 0 ==>
      |rows| < |old(q.contents)| && q.contents == old(q.contents) + [old(q.contents)[|rows|]]
  {
    var last;
    rows, last := ReadUntilMarker(q);
    polling := last == None;
    ConsumedUpTo(q.contents, rows, last, if polling then [] else q.contents[|rows| + 1..]);
    if !polling {
      eos.count := eos.count + 1;
      if eos.count < 1 {
        q.Insert(last.value);
      }
    }
  }
}
