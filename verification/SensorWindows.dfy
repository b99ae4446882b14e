/**
 The data manager on values: one window of recent readings per line of the room map, and the log
 events each reading causes. Temperatures are exact reals.
 */
module SensorWindows {
  import opened Records

  // RUN_AVG_LENGTH, SET_MIN_TEMP and SET_MAX_TEMP.
  datatype RawConfig = Config(length: nat, minTemp: real, maxTemp: real)
  type Config = c: RawConfig | c.length > 0 witness Config(5, 10.0, 20.0)

  datatype MapLine = MapLine(room: nat, sensor: SensorId)

  datatype Entry = Entry(sensor: SensorId, room: nat, window: seq<real>, lastModified: int, average: Option<real>)

  datatype LogEvent =
    | TooHot(id: SensorId, average: real)
    | TooCold(id: SensorId, average: real)
    | InvalidSensor(id: SensorId)

  function Midpoint(c: Config): real {
    (c.maxTemp + c.minTemp) / 2.0
  }

  function Total(w: seq<real>): real {
    if w == [] then 0.0 else Total(w[..|w| - 1]) + w[|w| - 1]
  }

  function Average(w: seq<real>): real
    requires w != []
  {
    Total(w) / |w| as real
  }

  function Shift(w: seq<real>, v: real): seq<real>
    requires w != []
  {
    [v] + w[..|w| - 1]
  }

  function Initial(c: Config, line: MapLine): Entry {
    Entry(line.sensor, line.room, seq(c.length, _ => Midpoint(c)), 0, None)
  }

  // Every line is inserted at the front of the list.
  function Load(c: Config, lines: seq<MapLine>): (es: seq<Entry>)
    ensures |es| == |lines| && WellSized(c, es)
  {
    if lines == [] then [] else [Initial(c, lines[|lines| - 1])] + Load(c, lines[..|lines| - 1])
  }

  // The first entry for a sensor.
  function Find(es: seq<Entry>, id: SensorId): Option<nat> {
    if es == [] then None
    else if es[0].sensor == id then Some(0)
    else match Find(es[1..], id)
         case None => None
         case Some(i) => Some(i + 1)
  }

  function Updated(e: Entry, rec: Record): Entry
    requires e.window != []
  {
    var w := Shift(e.window, rec.value);
    Entry(e.sensor, e.room, w, rec.ts, Some(Average(w)))
  }

  function Alarm(c: Config, id: SensorId, average: real): seq<LogEvent> {
    if average > c.maxTemp then [TooHot(id, average)]
    else if average < c.minTemp then [TooCold(id, average)]
    else []
  }

  predicate WellSized(c: Config, es: seq<Entry>) {
    forall i :: 0 <= i < |es| ==> |es[i].window| == c.length
  }

  lemma {:induction false} FindFirst(es: seq<Entry>, id: SensorId)
    ensures Find(es, id) == None <==> forall k :: 0 <= k < |es| ==> es[k].sensor != id
    ensures Find(es, id).Some? ==>
      var i := Find(es, id).value;
      i < |es| && es[i].sensor == id && forall k :: 0 <= k < i ==> es[k].sensor != id
  {
    if es != [] && es[0].sensor != id {
      FindFirst(es[1..], id);
      if Find(es[1..], id).Some? {
        assert forall k :: 1 <= k < |es| ==> es[k] == es[1..][k - 1];
      } else {
        forall k | 0 <= k < |es| ensures es[k].sensor != id {
          assert k > 0 ==> es[k] == es[1..][k - 1];
        }
      }
    }
  }

  // One record other than the end marker.
  function Absorb(c: Config, es: seq<Entry>, rec: Record): (r: (seq<Entry>, seq<LogEvent>))
    requires WellSized(c, es)
    ensures WellSized(c, r.0) && |r.0| == |es|
  {
    FindFirst(es, rec.id);
    match Find(es, rec.id)
    case None => (es, [InvalidSensor(rec.id)])
    case Some(i) =>
      var e := Updated(es[i], rec);
      (es[i := e], Alarm(c, e.sensor, e.average.value))
  }

  function AbsorbAll(c: Config, es: seq<Entry>, recs: seq<Record>): (r: (seq<Entry>, seq<LogEvent>))
    requires WellSized(c, es)
    ensures WellSized(c, r.0) && |r.0| == |es|
  {
    if recs == [] then (es, [])
    else
      var (before, log) := AbsorbAll(c, es, recs[..|recs| - 1]);
      var (after, events) := Absorb(c, before, recs[|recs| - 1]);
      (after, log + events)
  }

  // ---- The reference: what the windows and the log should be, read off the whole stream ----

  // The readings of one sensor, in order of arrival.
  function Readings(recs: seq<Record>, id: SensorId): seq<Record> {
    if recs == [] then []
    else
      var last := recs[|recs| - 1];
      Readings(recs[..|recs| - 1], id) + if last.id == id then [last] else []
  }

  // The length latest values, newest first, padded with the midpoint.
  function LatestValues(c: Config, rs: seq<Record>): seq<real> {
    seq(c.length, j requires 0 <= j < c.length =>
      if j < |rs| then rs[|rs| - 1 - j].value else Midpoint(c))
  }

  function LastTimestamp(rs: seq<Record>): int {
    if rs == [] then 0 else rs[|rs| - 1].ts
  }

  // The line that describes a sensor: the last one that names it.
  predicate DescribedBy(lines: seq<MapLine>, id: SensorId, k: nat) {
    k < |lines| && lines[k].sensor == id && forall j :: k < j < |lines| ==> lines[j].sensor != id
  }

  predicate InMap(lines: seq<MapLine>, id: SensorId) {
    exists k :: 0 <= k < |lines| && lines[k].sensor == id
  }

  // What the last record of recs should make the manager log.
  function ExpectedEvents(c: Config, lines: seq<MapLine>, recs: seq<Record>): seq<LogEvent>
    requires recs != []
  {
    var id := recs[|recs| - 1].id;
    if InMap(lines, id) then Alarm(c, id, Average(LatestValues(c, Readings(recs, id)))) else [InvalidSensor(id)]
  }

  function ExpectedLog(c: Config, lines: seq<MapLine>, recs: seq<Record>): seq<LogEvent> {
    if recs == [] then [] else ExpectedLog(c, lines, recs[..|recs| - 1]) + ExpectedEvents(c, lines, recs)
  }

  // ---- Loading and looking up ----

  lemma {:induction false} LoadReverses(c: Config, lines: seq<MapLine>)
    ensures forall i :: 0 <= i < |lines| ==> Load(c, lines)[i] == Initial(c, lines[|lines| - 1 - i])
  {
    if lines != [] {
      LoadReverses(c, lines[..|lines| - 1]);
    }
  }

  /** Every loaded entry is that of its line, with no reading yet and a full window of values that are as
      far from the lower limit as from the upper. */
  lemma {:induction false} LoadedEntries(c: Config, lines: seq<MapLine>, i: nat)
    requires i < |lines|
    ensures var e, line := Load(c, lines)[i], lines[|lines| - 1 - i];
      && e.sensor == line.sensor && e.room == line.room && e.lastModified == 0 && e.average == None
      && |e.window| == c.length
      && forall j :: 0 <= j < c.length ==> e.window[j] - c.minTemp == c.maxTemp - e.window[j]
  {
    LoadReverses(c, lines);
  }

  lemma {:induction false} LoadedSensor(c: Config, lines: seq<MapLine>, i: nat, k: int)
    requires i < |lines| && k == |lines| - 1 - i
    ensures Load(c, lines)[i].sensor == lines[k].sensor
  {
    LoadReverses(c, lines);
  }

  lemma {:induction false} FoundIsLastLine(c: Config, lines: seq<MapLine>, id: SensorId, i: nat)
    requires Find(Load(c, lines), id) == Some(i)
    ensures i < |lines| && DescribedBy(lines, id, |lines| - 1 - i)
  {
    var es := Load(c, lines);
    LoadReverses(c, lines);
    FindFirst(es, id);
    forall j | |lines| - 1 - i < j < |lines| ensures lines[j].sensor != id {
      assert es[|lines| - 1 - j].sensor != id;
    }
  }

  lemma {:induction false} LastLineIsFound(c: Config, lines: seq<MapLine>, id: SensorId, i: nat)
    requires i < |lines| && DescribedBy(lines, id, |lines| - 1 - i)
    ensures Find(Load(c, lines), id) == Some(i)
  {
    var es := Load(c, lines);
    LoadedSensor(c, lines, i, |lines| - 1 - i);
    FindFirst(es, id);
    var f := Find(es, id).value;
    LoadedSensor(c, lines, f, |lines| - 1 - f);
  }

  /** The index-based search over the loaded list finds the entry of the last line for the sensor, and
      fails exactly for sensors no line mentions. */
  lemma {:induction false} LookupFindsLastLine(c: Config, lines: seq<MapLine>, id: SensorId)
    ensures Find(Load(c, lines), id) == None <==> !InMap(lines, id)
    ensures forall i: nat ::
      Find(Load(c, lines), id) == Some(i) <==> i < |lines| && DescribedBy(lines, id, |lines| - 1 - i)
  {
    forall i: nat
      ensures Find(Load(c, lines), id) == Some(i) <==> i < |lines| && DescribedBy(lines, id, |lines| - 1 - i)
    {
      if Find(Load(c, lines), id) == Some(i) {
        FoundIsLastLine(c, lines, id, i);
      } else if i < |lines| && DescribedBy(lines, id, |lines| - 1 - i) {
        LastLineIsFound(c, lines, id, i);
      }
    }
    NotFoundExactly(c, lines, id);
  }

  lemma {:induction false} NotFoundExactly(c: Config, lines: seq<MapLine>, id: SensorId)
    ensures Find(Load(c, lines), id) == None <==> !InMap(lines, id)
  {
    var es := Load(c, lines);
    FindFirst(es, id);
    if k :| 0 <= k < |lines| && lines[k].sensor == id {
      LoadedSensor(c, lines, |lines| - 1 - k, k);
    }
    if Find(es, id) != None {
      FoundIsLastLine(c, lines, id, Find(es, id).value);
    }
  }

  // ---- The windows ----

  lemma {:induction false} ShiftKeepsLatest(c: Config, rs: seq<Record>, rec: Record)
    ensures Shift(LatestValues(c, rs), rec.value) == LatestValues(c, rs + [rec])
  {
  }

  // Entry i describes its sensor in es, and no entry before it does.
  predicate Current(es: seq<Entry>, i: nat) {
    i < |es| && Find(es, es[i].sensor) == Some(i)
  }

  ghost predicate SameSensors(es: seq<Entry>, fs: seq<Entry>) {
    |es| == |fs| && forall i :: 0 <= i < |es| ==> es[i].sensor == fs[i].sensor && es[i].room == fs[i].room
  }

  lemma {:induction false} FindBySensor(es: seq<Entry>, fs: seq<Entry>, id: SensorId)
    requires SameSensors(es, fs)
    ensures Find(es, id) == Find(fs, id)
  {
    if es != [] {
      assert SameSensors(es[1..], fs[1..]);
      FindBySensor(es[1..], fs[1..], id);
    }
  }

  // The entry of line k after the stream recs.
  ghost predicate Tracks(c: Config, start: seq<Entry>, es: seq<Entry>, recs: seq<Record>, i: nat)
    requires i < |start| == |es|
  {
    var rs := Readings(recs, start[i].sensor);
    && (Current(start, i) ==>
          && es[i].window == LatestValues(c, rs)
          && es[i].lastModified == LastTimestamp(rs)
          && es[i].average == if rs == [] then None else Some(Average(LatestValues(c, rs))))
    && (!Current(start, i) ==> es[i] == start[i])
  }

  lemma {:induction false} StreamTracks(c: Config, lines: seq<MapLine>, recs: seq<Record>)
    ensures SameSensors(Load(c, lines), AbsorbAll(c, Load(c, lines), recs).0)
    ensures forall i: nat :: i < |Load(c, lines)| ==>
      Tracks(c, Load(c, lines), AbsorbAll(c, Load(c, lines), recs).0, recs, i)
  {
    var start := Load(c, lines);
    LoadReverses(c, lines);
    if recs == [] {
      forall i: nat | i < |start| ensures Tracks(c, start, start, recs, i) {
        assert start[i].window == LatestValues(c, []);
      }
    } else {
      var earlier, rec := recs[..|recs| - 1], recs[|recs| - 1];
      StreamTracks(c, lines, earlier);
      var before := AbsorbAll(c, start, earlier).0;
      var after := Absorb(c, before, rec).0;
      FindFirst(before, rec.id);
      forall i: nat | i < |start| ensures Tracks(c, start, after, recs, i) {
        StepTracks(c, start, before, earlier, rec, i);
        assert earlier + [rec] == recs;
      }
    }
  }

  lemma {:induction false} StepTracks(c: Config, start: seq<Entry>, before: seq<Entry>,
                                      earlier: seq<Record>, rec: Record, i: nat)
    requires i < |start| && SameSensors(start, before) && WellSized(c, before)
    requires Tracks(c, start, before, earlier, i)
    ensures Tracks(c, start, Absorb(c, before, rec).0, earlier + [rec], i)
  {
    var id := start[i].sensor;
    FindBySensor(start, before, rec.id);
    FindFirst(before, rec.id);
    assert (earlier + [rec])[..|earlier|] == earlier;
    ShiftKeepsLatest(c, Readings(earlier, id), rec);
  }

  // w is the latest values of rs, newest first, and beyond those values halfway between the limits.
  ghost predicate HoldsLatest(c: Config, w: seq<real>, rs: seq<Record>) {
    && |w| == c.length
    && forall j :: 0 <= j < c.length ==>
      if j < |rs| then w[j] == rs[|rs| - 1 - j].value else w[j] - c.minTemp == c.maxTemp - w[j]
  }

  lemma {:induction false} LatestValuesHold(c: Config, rs: seq<Record>)
    ensures HoldsLatest(c, LatestValues(c, rs), rs)
  {
    assert Midpoint(c) - c.minTemp == c.maxTemp - Midpoint(c);
  }

  lemma {:induction false} EntryOfLine(c: Config, lines: seq<MapLine>, recs: seq<Record>, k: nat)
    requires k < |lines|
    ensures var start, es := Load(c, lines), AbsorbAll(c, Load(c, lines), recs).0;
      var i := |lines| - 1 - k;
      && |es| == |lines| && es[i].sensor == lines[k].sensor == start[i].sensor && es[i].room == lines[k].room
      && (Current(start, i) <==> DescribedBy(lines, lines[k].sensor, k))
      && Tracks(c, start, es, recs, i)
  {
    StreamTracks(c, lines, recs);
    LoadReverses(c, lines);
    LookupFindsLastLine(c, lines, lines[k].sensor);
  }

  /** Window refinement: after any stream, the entry the search finds for a sensor holds the latest
      readings of that sensor, newest first and padded with values halfway between the limits, and its
      last timestamp; an entry shadowed by a later line for the same sensor is as it was loaded. */
  lemma {:induction false} WindowsHoldLatest(c: Config, lines: seq<MapLine>, recs: seq<Record>, k: nat)
    requires k < |lines|
    ensures var es := AbsorbAll(c, Load(c, lines), recs).0;
      var i := |lines| - 1 - k;
      var rs := Readings(recs, lines[k].sensor);
      && |es| == |lines| && es[i].sensor == lines[k].sensor && es[i].room == lines[k].room
      && (DescribedBy(lines, lines[k].sensor, k) ==>
            && HoldsLatest(c, es[i].window, rs) && es[i].window == LatestValues(c, rs)
            && es[i].lastModified == (if rs == [] then 0 else rs[|rs| - 1].ts)
            && es[i].average == if rs == [] then None else Some(Average(es[i].window)))
      && (!DescribedBy(lines, lines[k].sensor, k) ==> es[i] == Load(c, lines)[i])
  {
    EntryOfLine(c, lines, recs, k);
    LatestValuesHold(c, Readings(recs, lines[k].sensor));
  }

  // ---- The log ----

  /** The log is exactly the one read off the stream: every reading of a mapped sensor is judged by the
      average of that sensor's latest values, every other reading is reported as invalid. */
  lemma {:induction false} LogAsExpected(c: Config, lines: seq<MapLine>, recs: seq<Record>)
    ensures AbsorbAll(c, Load(c, lines), recs).1 == ExpectedLog(c, lines, recs)
  {
    if recs != [] {
      var start := Load(c, lines);
      var earlier, rec := recs[..|recs| - 1], recs[|recs| - 1];
      LogAsExpected(c, lines, earlier);
      var before := AbsorbAll(c, start, earlier).0;
      StreamTracks(c, lines, earlier);
      FindBySensor(start, before, rec.id);
      FindFirst(start, rec.id);
      LookupFindsLastLine(c, lines, rec.id);
      if InMap(lines, rec.id) {
        var i := Find(start, rec.id).value;
        assert Tracks(c, start, before, earlier, i);
        ShiftKeepsLatest(c, Readings(earlier, rec.id), rec);
        assert Readings(recs, rec.id) == Readings(earlier, rec.id) + [rec];
      }
    }
  }

  lemma {:induction false} TotalBounds(w: seq<real>, lo: real, hi: real)
    requires forall j :: 0 <= j < |w| ==> lo <= w[j] <= hi
    ensures |w| as real * lo <= Total(w) <= |w| as real * hi
  {
    if w != [] {
      TotalBounds(w[..|w| - 1], lo, hi);
      assert (|w| - 1) as real == |w| as real - 1.0;
    }
  }

  lemma {:induction false} TotalAbove(w: seq<real>, hi: real)
    requires w != [] && forall j :: 0 <= j < |w| ==> w[j] > hi
    ensures Total(w) > |w| as real * hi
  {
    var v := w[..|w| - 1];
    assert (|w| - 1) as real == |w| as real - 1.0;
    if v != [] {
      TotalAbove(v, hi);
    }
  }

  lemma {:induction false} TotalBelow(w: seq<real>, lo: real)
    requires w != [] && forall j :: 0 <= j < |w| ==> w[j] < lo
    ensures Total(w) < |w| as real * lo
  {
    var v := w[..|w| - 1];
    assert (|w| - 1) as real == |w| as real - 1.0;
    if v != [] {
      TotalBelow(v, lo);
    }
  }

  lemma Quotient(t: real, n: real, m: real)
    requires n > 0.0
    ensures t <= n * m ==> t / n <= m
    ensures t >= n * m ==> t / n >= m
    ensures t > n * m ==> t / n > m
    ensures t < n * m ==> t / n < m
  {
    assert t == (t / n) * n;
  }

  predicate WithinLimits(c: Config, rs: seq<Record>) {
    forall j :: 0 <= j < |rs| ==> c.minTemp <= rs[j].value <= c.maxTemp
  }

  // The window is full of readings, all of them past one limit.
  predicate LatestAllAbove(c: Config, rs: seq<Record>) {
    |rs| >= c.length && forall j :: |rs| - c.length <= j < |rs| ==> rs[j].value > c.maxTemp
  }

  predicate LatestAllBelow(c: Config, rs: seq<Record>) {
    |rs| >= c.length && forall j :: |rs| - c.length <= j < |rs| ==> rs[j].value < c.minTemp
  }

  predicate Concerns(e: LogEvent, id: SensorId) {
    !e.InvalidSensor? && e.id == id
  }

  lemma {:induction false} InRangeIsQuiet(c: Config, rs: seq<Record>, id: SensorId)
    requires rs != [] && WithinLimits(c, rs)
    ensures Alarm(c, id, Average(LatestValues(c, rs))) == []
  {
    var w := LatestValues(c, rs);
    assert c.minTemp <= rs[0].value <= c.maxTemp;
    assert c.minTemp <= Midpoint(c) <= c.maxTemp;
    forall j | 0 <= j < |w| ensures c.minTemp <= w[j] <= c.maxTemp {
      if j < |rs| {
        assert w[j] == rs[|rs| - 1 - j].value;
      }
    }
    TotalBounds(w, c.minTemp, c.maxTemp);
    Quotient(Total(w), |w| as real, c.minTemp);
    Quotient(Total(w), |w| as real, c.maxTemp);
  }

  /** No false alarm: a sensor whose readings all lie within the limits is never reported hot or cold. */
  lemma {:induction false} NoFalseAlarm(c: Config, lines: seq<MapLine>, recs: seq<Record>, id: SensorId)
    requires WithinLimits(c, Readings(recs, id))
    ensures forall k :: 0 <= k < |AbsorbAll(c, Load(c, lines), recs).1| ==>
      !Concerns(AbsorbAll(c, Load(c, lines), recs).1[k], id)
  {
    LogAsExpected(c, lines, recs);
    if recs != [] {
      var earlier, rec := recs[..|recs| - 1], recs[|recs| - 1];
      assert Readings(earlier, id) <= Readings(recs, id);
      NoFalseAlarm(c, lines, earlier, id);
      LogAsExpected(c, lines, earlier);
      if rec.id == id {
        InRangeIsQuiet(c, Readings(recs, id), id);
      }
    }
  }

  lemma {:induction false} AboveIsHot(c: Config, rs: seq<Record>, id: SensorId)
    requires LatestAllAbove(c, rs)
    ensures Alarm(c, id, Average(LatestValues(c, rs))) == [TooHot(id, Average(LatestValues(c, rs)))]
  {
    var w := LatestValues(c, rs);
    assert forall j :: 0 <= j < |w| ==> w[j] == rs[|rs| - 1 - j].value;
    TotalAbove(w, c.maxTemp);
    Quotient(Total(w), |w| as real, c.maxTemp);
  }

  lemma {:induction false} BelowIsCold(c: Config, rs: seq<Record>, id: SensorId)
    requires LatestAllBelow(c, rs) && c.minTemp <= c.maxTemp
    ensures Alarm(c, id, Average(LatestValues(c, rs))) == [TooCold(id, Average(LatestValues(c, rs)))]
  {
    var w := LatestValues(c, rs);
    assert forall j :: 0 <= j < |w| ==> w[j] == rs[|rs| - 1 - j].value;
    TotalBelow(w, c.minTemp);
    Quotient(Total(w), |w| as real, c.minTemp);
  }

  /** No missed alarm: once the last RUN_AVG_LENGTH readings of a mapped sensor are all above the upper
      (below the lower) limit, the record that makes it so, and each further such record, logs exactly
      one hot (cold) report. */
  lemma {:induction false} NoMissedAlarm(c: Config, lines: seq<MapLine>, earlier: seq<Record>, rec: Record)
    requires InMap(lines, rec.id)
    ensures var rs := Readings(earlier, rec.id) + [rec];
      var before, after := AbsorbAll(c, Load(c, lines), earlier).1, AbsorbAll(c, Load(c, lines), earlier + [rec]).1;
      && (LatestAllAbove(c, rs) ==> after == before + [TooHot(rec.id, Average(LatestValues(c, rs)))])
      && (LatestAllBelow(c, rs) && c.minTemp <= c.maxTemp ==>
            after == before + [TooCold(rec.id, Average(LatestValues(c, rs)))])
  {
    var recs := earlier + [rec];
    assert recs[..|recs| - 1] == earlier;
    LogAsExpected(c, lines, earlier);
    LogAsExpected(c, lines, recs);
    var rs := Readings(recs, rec.id);
    if LatestAllAbove(c, rs) {
      AboveIsHot(c, rs, rec.id);
    }
    if LatestAllBelow(c, rs) && c.minTemp <= c.maxTemp {
      BelowIsCold(c, rs, rec.id);
    }
  }

  /** A reading of a sensor that no map line names is reported as invalid and changes nothing; a reading of a
      mapped sensor never is. */
  lemma {:induction false} InvalidExactly(c: Config, lines: seq<MapLine>, earlier: seq<Record>, rec: Record)
    ensures var before, after := AbsorbAll(c, Load(c, lines), earlier), AbsorbAll(c, Load(c, lines), earlier + [rec]);
      && before.1 <= after.1
      && (!InMap(lines, rec.id) ==> after == (before.0, before.1 + [InvalidSensor(rec.id)]))
      && (InMap(lines, rec.id) ==> forall k :: |before.1| <= k < |after.1| ==> !after.1[k].InvalidSensor?)
  {
    var start := Load(c, lines);
    assert (earlier + [rec])[..|earlier|] == earlier;
    StreamTracks(c, lines, earlier);
    var before := AbsorbAll(c, start, earlier).0;
    FindBySensor(start, before, rec.id);
    LookupFindsLastLine(c, lines, rec.id);
  }

  lemma {:induction false} TotalCons(v: real, w: seq<real>)
    ensures Total([v] + w) == v + Total(w)
  {
    if w == [] {
      assert [v][..0] == [];
      assert [v] + w == [v];
    } else {
      assert ([v] + w)[..|w|] == [v] + w[..|w| - 1];
      TotalCons(v, w[..|w| - 1]);
    }
  }

  /** Each reading moves the average by exactly (new - dropped) / RUN_AVG_LENGTH. */
  lemma AverageMoves(w: seq<real>, v: real)
    requires w != []
    ensures Average(Shift(w, v)) == Average(w) + (v - w[|w| - 1]) / |w| as real
  {
    var kept := w[..|w| - 1];
    TotalCons(v, kept);
    var n := |w| as real;
    assert Total(Shift(w, v)) == Total(w) + (v - w[|w| - 1]);
    assert (Total(w) + (v - w[|w| - 1])) / n == Total(w) / n + (v - w[|w| - 1]) / n;
  }
}
