/** Sensor readings as both programs exchange them, and the sequence vocabulary the proofs share. */
module Records {

  datatype Option<+T> = None | Some(value: T)

  // sensor_id_t is a uint16_t; id 0 is reserved for the end-of-stream marker.
  type SensorId = x: int | 0 <= x < 0x1_0000

  datatype Record = Record(id: SensorId, value: real, ts: int)

  predicate IsMarker(r: Record) {
    r.id == 0
  }

  const END_MARKER := Record(0, 0.0, 0)

  // No genuine reading uses the reserved id.
  predicate MarkerFree(s: seq<Record>) {
    forall k :: 0 <= k < |s| ==> !IsMarker(s[k])
  }

  // The readings of s, in order, without the markers.
  function Data(s: seq<Record>): seq<Record> {
    if s == [] then [] else (if IsMarker(s[0]) then [] else [s[0]]) + Data(s[1..])
  }

  // The readings that precede the first marker.
  function BeforeMarker(s: seq<Record>): seq<Record> {
    if s == [] || IsMarker(s[0]) then [] else [s[0]] + BeforeMarker(s[1..])
  }

  // No reading is behind a marker.
  predicate MarkersTrail(q: seq<Record>) {
    forall i, j :: 0 <= i < j < |q| && IsMarker(q[i]) ==> IsMarker(q[j])
  }

  predicate OnlyMarkers(q: seq<Record>) {
    forall k :: 0 <= k < |q| ==> IsMarker(q[k])
  }

  function Sum<T>(f: T -> nat, s: seq<T>): nat {
    if s == [] then 0 else f(s[0]) + Sum(f, s[1..])
  }

  lemma Associative<T>(a: seq<T>, b: seq<T>, c: seq<T>)
    ensures (a + b) + c == a + (b + c)
  {
  }

  lemma TakeOneMore<T>(a: seq<T>, s: seq<T>, i: nat)
    requires i < |s|
    ensures a + s[..i + 1] == (a + s[..i]) + [s[i]]
  {
    assert s[..i + 1] == s[..i] + [s[i]];
  }

  lemma {:induction false} DataConcat(a: seq<Record>, b: seq<Record>)
    ensures Data(a + b) == Data(a) + Data(b)
  {
    if a == [] {
      assert a + b == b;
    } else {
      assert (a + b)[1..] == a[1..] + b;
      DataConcat(a[1..], b);
    }
  }

  lemma DataSnoc(a: seq<Record>, r: Record)
    ensures Data(a + [r]) == if IsMarker(r) then Data(a) else Data(a) + [r]
  {
    DataConcat(a, [r]);
    assert Data([r]) == if IsMarker(r) then [] else [r];
  }

  lemma {:induction false} DataIsMarkerFree(s: seq<Record>)
    ensures MarkerFree(Data(s)) && |Data(s)| <= |s|
    ensures Data(s) == s <==> MarkerFree(s)
  {
    if s != [] {
      DataIsMarkerFree(s[1..]);
      if IsMarker(s[0]) {
        assert !MarkerFree(s);
      } else {
        assert s == [s[0]] + s[1..];
        assert Data(s) == s <==> Data(s[1..]) == s[1..];
      }
    }
  }

  // BeforeMarker is the longest marker-free prefix.
  lemma {:induction false} BeforeMarkerIsPrefix(s: seq<Record>)
    ensures BeforeMarker(s) <= s
    ensures MarkerFree(BeforeMarker(s))
    ensures |BeforeMarker(s)| < |s| ==> IsMarker(s[|BeforeMarker(s)|])
  {
    if s == [] || IsMarker(s[0]) {
    } else {
      BeforeMarkerIsPrefix(s[1..]);
      assert s == [s[0]] + s[1..];
    }
  }

  lemma {:induction false} BeforeMarkerAt(s: seq<Record>, k: nat)
    requires k <= |s| && MarkerFree(s[..k]) && (k < |s| ==> IsMarker(s[k]))
    ensures BeforeMarker(s) == s[..k]
  {
    if k > 0 {
      assert s[0] == s[..k][0];
      assert s[1..][..k - 1] == s[..k][1..];
      assert forall j :: 0 <= j < k - 1 ==> s[..k][1..][j] == s[..k][j + 1];
      BeforeMarkerAt(s[1..], k - 1);
      assert s[..k] == [s[0]] + s[1..][..k - 1];
    }
  }

  lemma BeforeFirstMarker(a: seq<Record>, m: Record, b: seq<Record>)
    requires MarkerFree(a) && IsMarker(m)
    ensures BeforeMarker(a + [m] + b) == a
  {
    var s := a + [m] + b;
    assert s[..|a|] == a && s[|a|] == m;
    BeforeMarkerAt(s, |a|);
  }

  lemma MarkersTrailRest(q: seq<Record>)
    requires q != [] && MarkersTrail(q)
    ensures MarkersTrail(q[1..])
    ensures IsMarker(q[0]) || OnlyMarkers(q) ==> OnlyMarkers(q[1..])
  {
    assert forall k :: 0 <= k < |q[1..]| ==> q[1..][k] == q[k + 1];
  }

  lemma {:induction false} OnlyMarkersNoData(q: seq<Record>)
    ensures OnlyMarkers(q) <==> Data(q) == []
  {
    if q != [] {
      OnlyMarkersNoData(q[1..]);
      assert q == [q[0]] + q[1..];
    }
  }

  // Reading up to the first marker yields every reading exactly if none is behind a marker.
  lemma {:induction false} BeforeMarkerIsData(q: seq<Record>)
    ensures BeforeMarker(q) == Data(q) <==> MarkersTrail(q)
  {
    if q != [] {
      if IsMarker(q[0]) {
        OnlyMarkersNoData(q);
        assert MarkersTrail(q) ==> OnlyMarkers(q);
      } else {
        BeforeMarkerIsData(q[1..]);
        assert q == [q[0]] + q[1..];
        assert MarkersTrail(q) <==> MarkersTrail(q[1..]) by {
          if MarkersTrail(q) {
            MarkersTrailRest(q);
          }
        }
        assert BeforeMarker(q)[1..] == BeforeMarker(q[1..]) && Data(q)[1..] == Data(q[1..]);
      }
    }
  }

  lemma {:induction false} SumUpdate<T>(f: T -> nat, s: seq<T>, i: nat, x: T)
    requires i < |s|
    ensures Sum(f, s[i := x]) + f(s[i]) == Sum(f, s) + f(x)
  {
    if i == 0 {
      assert s[i := x][1..] == s[1..];
    } else {
      assert s[i := x][1..] == s[1..][i - 1 := x];
      SumUpdate(f, s[1..], i - 1, x);
    }
  }

  lemma {:induction false} SumConcat<T>(f: T -> nat, a: seq<T>, b: seq<T>)
    ensures Sum(f, a + b) == Sum(f, a) + Sum(f, b)
  {
    if a == [] {
      assert a + b == b;
    } else {
      assert (a + b)[1..] == a[1..] + b;
      SumConcat(f, a[1..], b);
    }
  }

  lemma SumSnoc<T>(f: T -> nat, a: seq<T>, x: T)
    ensures Sum(f, a + [x]) == Sum(f, a) + f(x)
  {
    SumConcat(f, a, [x]);
    assert [x][1..] == [];
    assert Sum(f, [x]) == f(x) + Sum(f, []);
  }

  // A summand never exceeds the sum.
  lemma {:induction false} SumAtLeast<T>(f: T -> nat, s: seq<T>, i: nat)
    requires i < |s|
    ensures f(s[i]) <= Sum(f, s)
  {
    if i != 0 {
      SumAtLeast(f, s[1..], i - 1);
    }
  }

  lemma {:induction false} SumAtLeastTwo<T>(f: T -> nat, s: seq<T>, i: nat, j: nat)
    requires i < j < |s|
    ensures f(s[i]) + f(s[j]) <= Sum(f, s)
  {
    if i == 0 {
      SumAtLeast(f, s[1..], j - 1);
    } else {
      SumAtLeastTwo(f, s[1..], i - 1, j - 1);
    }
  }

  lemma {:induction false} SumZero<T>(f: T -> nat, s: seq<T>)
    ensures Sum(f, s) == 0 <==> forall i :: 0 <= i < |s| ==> f(s[i]) == 0
  {
    if s != [] {
      SumZero(f, s[1..]);
      if Sum(f, s) == 0 {
        forall i | 0 <= i < |s| ensures f(s[i]) == 0 {
          SumAtLeast(f, s, i);
        }
      } else if forall i :: 0 <= i < |s| ==> f(s[i]) == 0 {
        forall i | 0 <= i < |s[1..]| ensures f(s[1..][i]) == 0 {
          assert s[1..][i] == s[i + 1];
        }
      }
    }
  }

  // A sum of bits equals the length exactly when every bit is set.
  lemma {:induction false} SumFull<T>(f: T -> nat, s: seq<T>)
    requires forall x :: f(x) <= 1
    ensures Sum(f, s) <= |s|
    ensures Sum(f, s) == |s| <==> forall i :: 0 <= i < |s| ==> f(s[i]) == 1
  {
    if s != [] {
      SumFull(f, s[1..]);
      if forall i :: 0 <= i < |s| ==> f(s[i]) == 1 {
        forall i | 0 <= i < |s[1..]| ensures f(s[1..][i]) == 1 {
          assert s[1..][i] == s[i + 1];
        }
      }
    }
  }
}
