/** The data manager on the heap: a linked list of entries, each with its window array, updated in place. */
module DataManager {
  import opened Records
  import opened SensorWindows
  import opened LinkedList

  class SensorEntry {
    const sensorId: SensorId
    const roomId: nat
    const window: array<real>
    var lastModified: int
    var average: Option<real>    // running_avg_value, unset until the first reading

    ghost function View(): Entry
      reads this, window
    {
      Entry(sensorId, roomId, window[..], lastModified, average)
    }

    constructor (sensorId: SensorId, roomId: nat, window: array<real>)
      ensures this.sensorId == sensorId && this.roomId == roomId && this.window == window
      ensures lastModified == 0 && average == None
    {
      this.sensorId, this.roomId, this.window := sensorId, roomId, window;
      lastModified, average := 0, None;
    }
  }

  function ElementCompare(x: SensorEntry, y: SensorEntry): (r: int)
    ensures r == 0 <==> x.sensorId == y.sensorId
    ensures r < 0 <==> x.sensorId < y.sensorId
  {
    if x.sensorId < y.sensorId then -1 else if x.sensorId > y.sensorId then 1 else 0
  }

  // No two entries share their storage.
  ghost predicate Separate(es: seq<SensorEntry>) {
    forall i, j :: 0 <= i < j < |es| ==> es[i] != es[j] && es[i].window != es[j].window
  }

  ghost function Views(es: seq<SensorEntry>): (vs: seq<Entry>)
    reads es, set e | e in es :: e.window
    ensures |vs| == |es| && forall i :: 0 <= i < |es| ==> vs[i] == es[i].View()
  {
    seq(|es|, i requires 0 <= i < |es| reads es, set e | e in es :: e.window => es[i].View())
  }

  ghost function Storage(es: seq<SensorEntry>): set<object> {
    (set e: SensorEntry | e in es :: e as object) + (set e: SensorEntry | e in es :: e.window as object)
  }

  lemma InStorage(es: seq<SensorEntry>, i: nat)
    requires i < |es|
    ensures es[i] in Storage(es) && es[i].window in Storage(es)
  {
    var e := es[i];
    assert e in es;
  }

  lemma ConsView(e: SensorEntry, es: seq<SensorEntry>)
    ensures Views([e] + es) == [e.View()] + Views(es)
  {
  }

  lemma ConsEntry(e: SensorEntry, es: seq<SensorEntry>)
    requires Separate(es) && e !in es && forall i :: 0 <= i < |es| ==> es[i].window != e.window
    ensures Separate([e] + es)
    ensures Storage([e] + es) == Storage(es) + {e, e.window}
  {
    var fs := [e] + es;
    assert fs[0] == e && forall i :: 0 < i < |fs| ==> fs[i] == es[i - 1];
    assert forall x :: x in fs <==> x == e || x in es;
  }

  // The list's own nodes are not entries.
  lemma NodesApart(list: List<SensorEntry>, es: seq<SensorEntry>)
    ensures Footprint(list) !! Storage(es)
  {
  }

  // ---- Arrays ----

  lemma TotalSnoc(w: seq<real>, v: real)
    ensures Total(w + [v]) == Total(w) + v
  {
    assert (w + [v])[..|w|] == w;
  }

  method GetRunningAvg(window: array<real>) returns (average: real)
    requires window.Length > 0
    ensures average == Average(window[..])
  {
    var sum := 0.0;
    for i := 0 to window.Length
      invariant sum == Total(window[..i])
    {
      sum := sum + window[i];
      TotalSnoc(window[..i], window[i]);
      assert window[..i + 1] == window[..i] + [window[i]];
    }
    assert window[..window.Length] == window[..];
    average := sum / window.Length as real;
  }

  method ShiftInPlace(window: array<real>, value: real)
    requires window.Length > 0
    modifies window
    ensures window[..] == Shift(old(window[..]), value)
  {
    var i := window.Length - 1;
    while i > 0
      invariant 0 <= i < window.Length
      invariant forall k :: 0 <= k <= i ==> window[k] == old(window[k])
      invariant forall k :: i < k < window.Length ==> window[k] == old(window[k - 1])
    {
      window[i] := window[i - 1];
      i := i - 1;
    }
    window[0] := value;
  }

  method NewWindow(c: Config) returns (window: array<real>)
    ensures fresh(window) && window[..] == seq(c.length, _ => Midpoint(c))
  {
    window := new real[c.length];
    for i := 0 to c.length
      invariant forall k :: 0 <= k < i ==> window[k] == Midpoint(c)
    {
      window[i] := Midpoint(c);
    }
  }

  // ---- The list ----

  // Reads the room map; each entry goes to the front of the list.
  method LoadMap(c: Config, lines: seq<MapLine>) returns (list: List<SensorEntry>)
    ensures list.Valid() && fresh(list) && fresh(list.live) && list.freed == [] && list.elementFree
    ensures Separate(list.elements) && fresh(Storage(list.elements))
    ensures Views(list.elements) == Load(c, lines)
  {
    list := new List<SensorEntry>(None, true, ElementCompare, _ => false);
    for n := 0 to |lines|
      invariant list.Valid() && fresh(list) && fresh(list.live) && list.freed == [] && list.elementFree
      invariant Separate(list.elements) && fresh(Storage(list.elements))
      invariant Views(list.elements) == Load(c, lines[..n])
    {
      AddEntry(c, list, lines[n]);
      LoadOneMore(c, lines, n);
    }
    assert lines[..|lines|] == lines;
  }

  lemma {:induction false} LoadOneMore(c: Config, lines: seq<MapLine>, n: nat)
    requires n < |lines|
    ensures Load(c, lines[..n + 1]) == [Initial(c, lines[n])] + Load(c, lines[..n])
  {
    assert lines[..n + 1][..n] == lines[..n];
  }

  method NewEntry(c: Config, line: MapLine) returns (e: SensorEntry)
    ensures fresh(e) && fresh(e.window) && e.View() == Initial(c, line)
  {
    var window := NewWindow(c);
    e := new SensorEntry(line.sensor, line.room, window);
  }

  method AddEntry(c: Config, list: List<SensorEntry>, line: MapLine)
    requires list.Valid() && Separate(list.elements)
    modifies list, list.live
    ensures list.Valid() && fresh(list.live - old(list.live)) && list.freed == old(list.freed)
    ensures Separate(list.elements) && fresh(Storage(list.elements) - Storage(old(list.elements)))
    ensures Views(list.elements) == [Initial(c, line)] + old(Views(list.elements))
  {
    ghost var es, vs := list.elements, Views(list.elements);
    var e := NewEntry(c, line);
    assert Views(es) == vs;
    NodesApart(list, [e] + es);
    var _ := InsertAtIndex(list, e, 0, false);
    assert list.elements == [e] + es;
    ConsEntry(e, es);
    ConsView(e, es);
  }

  // The search by index: the position of the first entry for the sensor.
  method Lookup(list: List<SensorEntry>, id: SensorId) returns (found: Option<SensorEntry>)
    requires list.Valid()
    ensures match Find(Views(list.elements), id)
      case None => found == None
      case Some(i) => i < |list.elements| && found == Some(list.elements[i])
  {
    ghost var vs := Views(list.elements);
    FindFirst(vs, id);
    var i := 0;
    var size := Size(list);
    while i < size
      invariant 0 <= i <= size == |list.elements|
      invariant forall k :: 0 <= k < i ==> vs[k].sensor != id
    {
      var tmp := GetElementAtIndex(list, i);
      if tmp.value.sensorId == id {
        assert vs[i].sensor == id;
        return tmp;
      }
      i := i + 1;
      size := Size(list);
    }
    return None;
  }

  // One record from the buffer other than the end marker.
  method AbsorbRecord(c: Config, list: List<SensorEntry>, rec: Record) returns (log: seq<LogEvent>)
    requires list.Valid() && Separate(list.elements) && WellSized(c, Views(list.elements))
    modifies Storage(list.elements)
    ensures list.Valid() && unchanged(list)
    ensures (Views(list.elements), log) == Absorb(c, old(Views(list.elements)), rec)
  {
    ghost var vs := Views(list.elements);
    var found := Lookup(list, rec.id);
    if found == None {
      return [InvalidSensor(rec.id)];
    }
    var e := found.value;
    ghost var i := Find(vs, rec.id).value;
    assert vs[i] == e.View();
    InStorage(list.elements, i);
    log := UpdateEntry(c, e, rec);
    assert Views(list.elements) == vs[i := e.View()];
  }

  method UpdateEntry(c: Config, e: SensorEntry, rec: Record) returns (log: seq<LogEvent>)
    requires e.window.Length > 0
    modifies e, e.window
    ensures e.View() == Updated(old(e.View()), rec)
    ensures log == Alarm(c, e.sensorId, e.View().average.value)
  {
    ShiftInPlace(e.window, rec.value);
    e.lastModified := rec.ts;
    var average := GetRunningAvg(e.window);
    e.average := Some(average);
    if average > c.maxTemp {
      log := [TooHot(e.sensorId, average)];
    } else if average < c.minTemp {
      log := [TooCold(e.sensorId, average)];
    } else {
      log := [];
    }
  }

  /** The whole data manager: it loads the map and absorbs the records it is delivered up to the first
      marker; without one it has absorbed them all and polls for more. */
  method Run(c: Config, lines: seq<MapLine>, delivered: seq<Record>)
    returns (list: List<SensorEntry>, log: seq<LogEvent>, polling: bool)
    ensures list.Valid() && list.freed == [] && list.elementFree
    ensures (Views(list.elements), log) == AbsorbAll(c, Load(c, lines), BeforeMarker(delivered))
    ensures polling <==> MarkerFree(delivered)
  {
    list := LoadMap(c, lines);
    log, polling := Consume(c, list, delivered);
  }

  // The entries and the log after the first k records.
  ghost function After(c: Config, start: seq<Entry>, recs: seq<Record>, k: nat): (r: (seq<Entry>, seq<LogEvent>))
    requires WellSized(c, start) && k <= |recs|
    ensures WellSized(c, r.0)
  {
    AbsorbAll(c, start, recs[..k])
  }

  lemma {:induction false} AbsorbOneMore(c: Config, start: seq<Entry>, recs: seq<Record>, k: nat)
    requires WellSized(c, start) && k < |recs|
    ensures var (es, log) := After(c, start, recs, k);
      After(c, start, recs, k + 1) == (Absorb(c, es, recs[k]).0, log + Absorb(c, es, recs[k]).1)
  {
    assert recs[..k + 1][..k] == recs[..k];
  }

  // Where the loop begins.
  lemma AbsorbedNone(c: Config, start: seq<Entry>, recs: seq<Record>)
    requires WellSized(c, start)
    ensures After(c, start, recs, 0) == (start, []) && MarkerFree(recs[..0])
  {
  }

  // Where the loop ends.
  lemma AbsorbedAll(c: Config, start: seq<Entry>, recs: seq<Record>, k: nat)
    requires WellSized(c, start) && k <= |recs|
    requires MarkerFree(recs[..k]) && (k < |recs| ==> IsMarker(recs[k]))
    ensures After(c, start, recs, k) == AbsorbAll(c, start, BeforeMarker(recs))
    ensures k == |recs| <==> MarkerFree(recs)
  {
    BeforeMarkerAt(recs, k);
    assert k == |recs| ==> recs[..k] == recs;
  }

  // The k-th pass of the loop.
  method ConsumeOne(c: Config, list: List<SensorEntry>, delivered: seq<Record>, k: nat, log: seq<LogEvent>,
                    ghost start: seq<Entry>) returns (longer: seq<LogEvent>)
    requires list.Valid() && Separate(list.elements) && WellSized(c, start) && k < |delivered|
    requires (Views(list.elements), log) == After(c, start, delivered, k)
    modifies Storage(list.elements)
    ensures list.Valid() && unchanged(list)
    ensures (Views(list.elements), longer) == After(c, start, delivered, k + 1)
    ensures MarkerFree(delivered[..k]) && !IsMarker(delivered[k]) ==> MarkerFree(delivered[..k + 1])
  {
    AbsorbOneMore(c, start, delivered, k);
    var events := AbsorbRecord(c, list, delivered[k]);
    longer := log + events;
  }

  // polling: the thread reads SBUFFER_EMPTY for ever, every record absorbed.
  method Consume(c: Config, list: List<SensorEntry>, delivered: seq<Record>)
    returns (log: seq<LogEvent>, polling: bool)
    requires list.Valid() && Separate(list.elements) && WellSized(c, Views(list.elements))
    modifies Storage(list.elements)
    ensures list.Valid() && unchanged(list)
    ensures (Views(list.elements), log) == AbsorbAll(c, old(Views(list.elements)), BeforeMarker(delivered))
    ensures polling <==> MarkerFree(delivered)
  {
    log := [];
    ghost var start := Views(list.elements);
    var k := 0;
    AbsorbedNone(c, start, delivered);
    while k < |delivered| && delivered[k].id != 0
      invariant k <= |delivered| && MarkerFree(delivered[..k])
      invariant list.Valid() && unchanged(list)
      invariant (Views(list.elements), log) == After(c, start, delivered, k)
    {
      log := ConsumeOne(c, list, delivered, k, log, start);
      k := k + 1;
    }
    AbsorbedAll(c, start, delivered, k);
    polling := k == |delivered|;
  }
}
