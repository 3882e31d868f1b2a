/** `addFlowersToMap` and the two calls that feed it in script.js: the
    parsed records are filtered by their DN cell, `"D"` for the day map and
    `"N"` for the night map, in input order, and every surviving record
    becomes one glyph marker at its centroid. Building a marker whose
    centroid has a NaN coordinate throws (Leaflet refuses an invalid
    latitude/longitude pair), which ends the drawing loop and the whole
    `then` callback. */
module Views {
  import opened Wrappers
  import opened Records
  import opened Flower
  import Text

  /** `s.filter(keep)`: the elements that pass, in their original order. */
  function Filter<T>(s: seq<T>, keep: T -> bool): (r: seq<T>)
    ensures |r| <= |s|
    ensures forall i :: 0 <= i < |r| ==> keep(r[i])
  {
    if |s| == 0 then []
    else if keep(s[0]) then [s[0]] + Filter(s[1..], keep)
    else Filter(s[1..], keep)
  }

  /** a is obtained from b by deleting elements: order is preserved. */
  ghost predicate IsSubsequence<T>(a: seq<T>, b: seq<T>)
    decreases |b|
  {
    if |a| == 0 then true
    else if |b| == 0 then false
    else (a[0] == b[0] && IsSubsequence(a[1..], b[1..])) || IsSubsequence(a, b[1..])
  }

  /** Filtering keeps the input order: its result is a subsequence. */
  lemma {:induction false} FilterIsSubsequence<T>(s: seq<T>, keep: T -> bool)
    ensures IsSubsequence(Filter(s, keep), s)
  {
    if |s| > 0 {
      FilterIsSubsequence(s[1..], keep);
      if keep(s[0]) {
        assert ([s[0]] + Filter(s[1..], keep))[1..] == Filter(s[1..], keep);
      }
    }
  }

  /** Filtering keeps every copy of an element that passes and drops every
      copy of one that does not. */
  lemma {:induction false} FilterCounts<T>(s: seq<T>, keep: T -> bool, x: T)
    ensures multiset(Filter(s, keep))[x] == if keep(x) then multiset(s)[x] else 0
  {
    if |s| > 0 {
      FilterCounts(s[1..], keep, x);
      assert s == [s[0]] + s[1..];
    }
  }

  /** Filtering distributes over concatenation. */
  lemma {:induction false} FilterAppend<T>(a: seq<T>, b: seq<T>, keep: T -> bool)
    ensures Filter(a + b, keep) == Filter(a, keep) + Filter(b, keep)
  {
    if |a| == 0 {
      assert a + b == b;
    } else {
      FilterAppend(a[1..], b, keep);
      assert (a + b)[1..] == a[1..] + b;
      if keep(a[0]) {
        assert [a[0]] + Filter(a[1..], keep) + Filter(b, keep)
            == [a[0]] + (Filter(a[1..], keep) + Filter(b, keep));
      }
    }
  }

  /** The predicate of the day map: `row.DN === "D"`. Only a present DN
      cell qualifies, and a record whose DN is "N" never does. */
  predicate IsDay(r: Record)
    ensures IsDay(r) ==> r.dn.Some? && r.dn != Some("N")
  {
    r.dn == Some("D")
  }

  /** The predicate of the night map: `row.DN === "N"`. Only a present DN
      cell qualifies, and a record whose DN is "D" never does. */
  predicate IsNight(r: Record)
    ensures IsNight(r) ==> r.dn.Some? && r.dn != Some("D")
  {
    r.dn == Some("N")
  }

  function DayRecords(data: seq<Record>): (rs: seq<Record>)
  {
    Filter(data, IsDay)
  }

  function NightRecords(data: seq<Record>): (rs: seq<Record>)
  {
    Filter(data, IsNight)
  }

  /** An element is kept exactly when it occurs in the input and passes. */
  lemma FilterMembers<T>(s: seq<T>, keep: T -> bool, x: T)
    ensures x in Filter(s, keep) <==> x in s && keep(x)
  {
    FilterCounts(s, keep, x);
    assert x in s <==> x in multiset(s);
    assert x in Filter(s, keep) <==> x in multiset(Filter(s, keep));
  }

  /** The day view holds exactly the "D" records and the night view exactly
      the "N" records, each with its multiplicity and in input order; a
      record in one view is never in the other, and a record with any other
      DN (or none) is in neither. */
  lemma DayNightPartition(data: seq<Record>, r: Record)
    ensures IsSubsequence(DayRecords(data), data)
    ensures IsSubsequence(NightRecords(data), data)
    ensures multiset(DayRecords(data))[r] == if r.dn == Some("D") then multiset(data)[r] else 0
    ensures multiset(NightRecords(data))[r] == if r.dn == Some("N") then multiset(data)[r] else 0
    ensures !(r in DayRecords(data) && r in NightRecords(data))
    ensures r.dn != Some("D") && r.dn != Some("N") ==> r !in DayRecords(data) && r !in NightRecords(data)
  {
    FilterIsSubsequence(data, IsDay);
    FilterIsSubsequence(data, IsNight);
    FilterCounts(data, IsDay, r);
    FilterCounts(data, IsNight, r);
  }

  // --------------------------------------------------------------- markers

  /** A record Leaflet can place: both centroid coordinates are numbers. */
  predicate Placeable(r: Record)
  {
    r.centroidLat.Finite? && r.centroidLon.Finite?
  }

  /** One map marker: a glyph placed at a latitude/longitude pair. */
  datatype Marker = Marker(lat: real, lon: real, petals: seq<Petal>)

  /** The marker `addFlowersToMap` adds for one placeable record: at the
      record's centroid, showing the record's glyph with its ten petals in
      petal order. */
  function MarkerOf(r: Record): (m: Marker)
    requires Placeable(r)
    ensures Finite(m.lat) == r.centroidLat && Finite(m.lon) == r.centroidLon
    ensures |m.petals| == PetalCount
    ensures forall k :: 0 <= k < PetalCount ==> m.petals[k].category == PetalOrder[k]
  {
    Marker(r.centroidLat.value, r.centroidLon.value, FlowerOf(r))
  }

  /** The markers a `forEach` loop has added, and whether it ran to the end
      (`false`: a marker constructor threw). */
  datatype Drawing = Drawing(markers: seq<Marker>, completed: bool)

  /** `rows.forEach(row => L.marker(...).addTo(map))`: markers are added in
      order, and the loop stops at the first record that is not placeable. */
  function DrawAll(rows: seq<Record>): (d: Drawing)
    ensures |d.markers| <= |rows|
  {
    if |rows| == 0 then Drawing([], true)
    else if !Placeable(rows[0]) then Drawing([], false)
    else
      var rest := DrawAll(rows[1..]);
      Drawing([MarkerOf(rows[0])] + rest.markers, rest.completed)
  }

  /** The drawing is exactly the markers of the longest placeable prefix of
      the rows, and the loop completes exactly when it reaches the end. */
  lemma {:induction false} DrawAllPrefix(rows: seq<Record>)
    ensures var d := DrawAll(rows);
      && (forall j :: 0 <= j < |d.markers| ==> Placeable(rows[j]) && d.markers[j] == MarkerOf(rows[j]))
      && (d.completed <==> |d.markers| == |rows|)
      && (!d.completed ==> !Placeable(rows[|d.markers|]))
  {
    if |rows| > 0 && Placeable(rows[0]) {
      DrawAllPrefix(rows[1..]);
      var rest := DrawAll(rows[1..]);
      var ms := DrawAll(rows).markers;
      assert ms == [MarkerOf(rows[0])] + rest.markers;
      forall j | 1 <= j < |ms|
        ensures Placeable(rows[j]) && ms[j] == MarkerOf(rows[j])
      {
        assert ms[j] == rest.markers[j - 1];
        assert rows[j] == rows[1..][j - 1];
      }
      if !rest.completed {
        assert rows[|ms|] == rows[1..][|rest.markers|];
      }
    }
  }

  /** Every marker drawn from the kept records of `data` is the marker of a
      placeable record of `data` that passes the filter. */
  lemma DrawnFromData(data: seq<Record>, keep: Record -> bool)
    ensures forall m :: m in DrawAll(Filter(data, keep)).markers ==>
      exists i :: 0 <= i < |data| && keep(data[i]) && Placeable(data[i]) && m == MarkerOf(data[i])
  {
    var rows := Filter(data, keep);
    var d := DrawAll(rows);
    DrawAllPrefix(rows);
    forall m | m in d.markers
      ensures exists i :: 0 <= i < |data| && keep(data[i]) && Placeable(data[i]) && m == MarkerOf(data[i])
    {
      var j :| 0 <= j < |d.markers| && d.markers[j] == m;
      FilterMembers(data, keep, rows[j]);
      var i :| 0 <= i < |data| && data[i] == rows[j];
    }
  }

  /** The two map views. */
  datatype MapViews = MapViews(day: seq<Marker>, night: seq<Marker>)

  /** The `then` callback: draw the day map from the "D" records, then the
      night map from the "N" records. If the day loop throws, the night map
      is never drawn. Whatever happens, every drawn marker belongs to a
      record of that map's partition. */
  function DrawMaps(data: seq<Record>): (v: MapViews)
    ensures forall m :: m in v.day ==>
      exists i :: 0 <= i < |data| && IsDay(data[i]) && Placeable(data[i]) && m == MarkerOf(data[i])
    ensures forall m :: m in v.night ==>
      exists i :: 0 <= i < |data| && IsNight(data[i]) && Placeable(data[i]) && m == MarkerOf(data[i])
    ensures |v.night| > 0 ==> DrawAll(DayRecords(data)).completed
  {
    DrawnFromData(data, IsDay);
    DrawnFromData(data, IsNight);
    var day := DrawAll(DayRecords(data));
    if day.completed then MapViews(day.markers, DrawAll(NightRecords(data)).markers)
    else MapViews(day.markers, [])
  }

  /** Load the file, then draw both maps. The two maps together never show
      more markers than the file has data lines. */
  function Render(text: string, conv: Converters): (v: MapViews)
    ensures |v.day| + |v.night| <= Text.Count(text, '\n')
  {
    var data := ParseData(text, conv);
    ViewsCoverDayAndNight(data);
    DrawMaps(data)
  }

  /** When every "D" and "N" record has a numeric centroid, the day map
      shows one marker per "D" record and the night map one per "N"
      record, in input order, and every such record is drawn. */
  lemma DrawMapsComplete(data: seq<Record>)
    requires forall i :: 0 <= i < |data| && (IsDay(data[i]) || IsNight(data[i])) ==> Placeable(data[i])
    ensures var v := DrawMaps(data);
      && |v.day| == |DayRecords(data)|
      && |v.night| == |NightRecords(data)|
      && (forall j :: 0 <= j < |v.day| ==>
            Placeable(DayRecords(data)[j]) && v.day[j] == MarkerOf(DayRecords(data)[j]))
      && (forall j :: 0 <= j < |v.night| ==>
            Placeable(NightRecords(data)[j]) && v.night[j] == MarkerOf(NightRecords(data)[j]))
    ensures forall i :: 0 <= i < |data| && IsDay(data[i]) ==> MarkerOf(data[i]) in DrawMaps(data).day
    ensures forall i :: 0 <= i < |data| && IsNight(data[i]) ==> MarkerOf(data[i]) in DrawMaps(data).night
  {
    var v := DrawMaps(data);
    AllKeptPlaceable(data, IsDay);
    AllKeptPlaceable(data, IsNight);
    DrawAllPrefix(DayRecords(data));
    DrawAllPrefix(NightRecords(data));
    forall i | 0 <= i < |data| && IsDay(data[i])
      ensures MarkerOf(data[i]) in v.day
    {
      FilterMembers(data, IsDay, data[i]);
      var j :| 0 <= j < |DayRecords(data)| && DayRecords(data)[j] == data[i];
      assert v.day[j] == MarkerOf(data[i]);
    }
    forall i | 0 <= i < |data| && IsNight(data[i])
      ensures MarkerOf(data[i]) in v.night
    {
      FilterMembers(data, IsNight, data[i]);
      var j :| 0 <= j < |NightRecords(data)| && NightRecords(data)[j] == data[i];
      assert v.night[j] == MarkerOf(data[i]);
    }
  }

  /** If every kept record of `data` is placeable, the drawing loop over
      them runs to completion. */
  lemma AllKeptPlaceable(data: seq<Record>, keep: Record -> bool)
    requires forall i :: 0 <= i < |data| && keep(data[i]) ==> Placeable(data[i])
    ensures DrawAll(Filter(data, keep)).completed
  {
    var rows := Filter(data, keep);
    DrawAllPrefix(rows);
    forall j | 0 <= j < |rows|
      ensures Placeable(rows[j])
    {
      FilterMembers(data, keep, rows[j]);
      var i :| 0 <= i < |data| && data[i] == rows[j];
    }
  }

  /** A "D" record whose centroid is not numeric stops the day loop before
      its own marker: the day map shows the markers of the "D" records
      before the first such record only, and the night map stays empty. */
  lemma DrawMapsAbort(data: seq<Record>, k: nat)
    requires k < |data| && IsDay(data[k]) && !Placeable(data[k])
    ensures var v := DrawMaps(data);
      && v.night == []
      && |v.day| < |DayRecords(data)|
      && (forall j :: 0 <= j < |v.day| ==>
            Placeable(DayRecords(data)[j]) && v.day[j] == MarkerOf(DayRecords(data)[j]))
      && !Placeable(DayRecords(data)[|v.day|])
  {
    var rows := DayRecords(data);
    DrawAllPrefix(rows);
    FilterMembers(data, IsDay, data[k]);
    var j :| 0 <= j < |rows| && rows[j] == data[k];
    assert !DrawAll(rows).completed;
  }

  /** If every "D" record has a numeric centroid but an "N" record does
      not, the day map is complete and the night loop stops before the
      first "N" record without a numeric centroid: the night map shows the
      markers of the "N" records before it only. */
  lemma DrawMapsNightAbort(data: seq<Record>, k: nat)
    requires forall i :: 0 <= i < |data| && IsDay(data[i]) ==> Placeable(data[i])
    requires k < |data| && IsNight(data[k]) && !Placeable(data[k])
    ensures var v := DrawMaps(data);
      && |v.day| == |DayRecords(data)|
      && (forall j :: 0 <= j < |v.day| ==>
            Placeable(DayRecords(data)[j]) && v.day[j] == MarkerOf(DayRecords(data)[j]))
      && |v.night| < |NightRecords(data)|
      && (forall j :: 0 <= j < |v.night| ==>
            Placeable(NightRecords(data)[j]) && v.night[j] == MarkerOf(NightRecords(data)[j]))
      && !Placeable(NightRecords(data)[|v.night|])
  {
    AllKeptPlaceable(data, IsDay);
    DrawAllPrefix(DayRecords(data));
    var rows := NightRecords(data);
    DrawAllPrefix(rows);
    FilterMembers(data, IsNight, data[k]);
    var j :| 0 <= j < |rows| && rows[j] == data[k];
    assert !DrawAll(rows).completed;
  }

  /** No record is in both partitions, so the "D" records and the "N"
      records together are exactly the records whose DN is "D" or "N". */
  lemma {:induction false} ViewsCoverDayAndNight(data: seq<Record>)
    ensures |DayRecords(data)| + |NightRecords(data)|
         == |Filter(data, (r: Record) => IsDay(r) || IsNight(r))|
  {
    if |data| > 0 {
      ViewsCoverDayAndNight(data[1..]);
    }
  }

  /** A newline at the end of the file draws nothing more: the empty last
      line becomes a record without DN, which neither view keeps. */
  lemma TrailingNewlineDrawsNothing(text: string, conv: Converters)
    ensures Render(text + "\n", conv) == Render(text, conv)
  {
    var data := ParseData(text, conv);
    Records.TrailingNewline(text, conv);
    FilterAppend(data, [ParseRow("", conv)], IsDay);
    FilterAppend(data, [ParseRow("", conv)], IsNight);
    assert Filter(data + [ParseRow("", conv)], IsDay) == Filter(data, IsDay);
    assert Filter(data + [ParseRow("", conv)], IsNight) == Filter(data, IsNight);
  }
}
