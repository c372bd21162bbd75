/** The in-region event selection of `fetchAndRenderAlerts` in app.js: the
    events list taken from the feed body and the stable filter over it. */
module Events {
  import opened JsValues
  import opened Region

  /** An upstream event. `geometry` is None when the field is absent or is a
      falsy or length-less value, so that `!ev.geometry || !ev.geometry.length`
      is exactly "None or the empty list". */
  datatype Event = Event(
    id: string,
    title: string,
    categories: seq<string>,
    sources: seq<string>,
    geometry: Option<seq<Geometry>>)

  /** The filter predicate: a non-empty geometry list with at least one entry
      in the region (`geometry.some(geometryWithinIndia)`). */
  predicate Qualifies(ev: Event) {
    ev.geometry.Some? && |ev.geometry.value| > 0 &&
    exists i | 0 <= i < |ev.geometry.value| :: GeometryWithinIndia(ev.geometry.value[i])
  }

  /** `s.filter(keep)`: every kept element passes `keep` and comes from the
      input, and nothing is added. */
  function Filter<T>(s: seq<T>, keep: T -> bool): (r: seq<T>)
    ensures |r| <= |s|
    ensures forall k | 0 <= k < |r| :: keep(r[k]) && r[k] in s
  {
    if s == [] then []
    else if keep(s[0]) then [s[0]] + Filter(s[1..], keep)
    else Filter(s[1..], keep)
  }

  /** `idx` picks out, in increasing order, exactly the positions of the
      elements that pass `keep`. */
  ghost predicate SelectsKept<T>(idx: seq<nat>, s: seq<T>, keep: T -> bool) {
    (forall k | 0 <= k < |idx| :: idx[k] < |s|) &&
    (forall k, l | 0 <= k < l < |idx| :: idx[k] < idx[l]) &&
    (forall i | 0 <= i < |s| :: i in idx <==> keep(s[i]))
  }

  /** Adds one to every position. */
  function Shift(idx: seq<nat>): (r: seq<nat>)
    ensures |r| == |idx| && forall k | 0 <= k < |idx| :: r[k] == idx[k] + 1
  {
    seq(|idx|, k requires 0 <= k < |idx| => idx[k] + 1)
  }

  lemma ShiftMembers(idx: seq<nat>, i: nat)
    ensures i + 1 in Shift(idx) <==> i in idx
    ensures 0 !in Shift(idx)
  {
    if i in idx {
      var k :| 0 <= k < |idx| && idx[k] == i;
      assert Shift(idx)[k] == i + 1;
    }
  }

  /** The positions of the kept elements, in increasing order. */
  ghost function Positions<T>(s: seq<T>, keep: T -> bool): seq<nat> {
    if s == [] then []
    else if keep(s[0]) then [0] + Shift(Positions(s[1..], keep))
    else Shift(Positions(s[1..], keep))
  }

  /** `r` is `s` read at the positions `idx`. */
  ghost predicate ReadsAt<T>(r: seq<T>, idx: seq<nat>, s: seq<T>) {
    |idx| == |r| &&
    forall k | 0 <= k < |idx| :: idx[k] < |s| && r[k] == s[idx[k]]
  }

  /** Positions are in range and strictly increasing. */
  lemma {:induction false} PositionsSorted<T>(s: seq<T>, keep: T -> bool)
    ensures forall k | 0 <= k < |Positions(s, keep)| :: Positions(s, keep)[k] < |s|
    ensures forall k, l | 0 <= k < l < |Positions(s, keep)| :: Positions(s, keep)[k] < Positions(s, keep)[l]
  {
    if s != [] {
      PositionsSorted(s[1..], keep);
      var p := Shift(Positions(s[1..], keep));
      if keep(s[0]) {
        assert forall k | 1 <= k < |[0] + p| :: ([0] + p)[k] == p[k - 1];
      }
    }
  }

  /** A position is listed iff the element there is kept. */
  lemma {:induction false} PositionsMembers<T>(s: seq<T>, keep: T -> bool, i: nat)
    requires i < |s|
    ensures i in Positions(s, keep) <==> keep(s[i])
  {
    var rest := s[1..];
    ShiftMembers(Positions(rest, keep), if i == 0 then 0 else i - 1);
    if i > 0 {
      PositionsMembers(rest, keep, i - 1);
      assert s[i] == rest[i - 1];
    }
  }

  /** Reading positions of `rest` one place further along `[x] + rest`. */
  lemma ReadsAtCons<T>(x: T, r: seq<T>, idx: seq<nat>, rest: seq<T>)
    requires ReadsAt(r, idx, rest)
    ensures ReadsAt(r, Shift(idx), [x] + rest)
    ensures ReadsAt([x] + r, [0] + Shift(idx), [x] + rest)
  {
    var s, p := [x] + rest, Shift(idx);
    forall k | 0 <= k < |p| ensures p[k] < |s| && r[k] == s[p[k]] {
      assert s[p[k]] == rest[idx[k]];
    }
    assert forall k | 1 <= k < |[0] + p| :: ([0] + p)[k] == p[k - 1] && ([x] + r)[k] == r[k - 1];
  }

  /** The output is the input read at the listed positions. */
  lemma {:induction false} PositionsRead<T>(s: seq<T>, keep: T -> bool)
    ensures ReadsAt(Filter(s, keep), Positions(s, keep), s)
  {
    if s != [] {
      var rest := s[1..];
      PositionsRead(rest, keep);
      ReadsAtCons(s[0], Filter(rest, keep), Positions(rest, keep), rest);
      assert [s[0]] + rest == s;
    }
  }

  /** Stable subsequence: the output is the input's kept elements, each once
      and in their original order, and nothing else. */
  lemma FilterIsOrderedSubsequence<T>(s: seq<T>, keep: T -> bool)
    ensures exists idx :: SelectsKept(idx, s, keep) && ReadsAt(Filter(s, keep), idx, s)
  {
    PositionsSorted(s, keep);
    PositionsRead(s, keep);
    forall i | 0 <= i < |s| ensures i in Positions(s, keep) <==> keep(s[i]) {
      PositionsMembers(s, keep, i);
    }
    assert SelectsKept(Positions(s, keep), s, keep);
  }

  /** Filtering distributes over concatenation, so relative order is kept. */
  lemma {:induction false} FilterAppend<T>(a: seq<T>, b: seq<T>, keep: T -> bool)
    ensures Filter(a + b, keep) == Filter(a, keep) + Filter(b, keep)
  {
    if a != [] {
      assert (a + b)[0] == a[0];
      assert (a + b)[1..] == a[1..] + b;
      FilterAppend(a[1..], b, keep);
    } else {
      assert a + b == b;
    }
  }

  /** The inline `events.filter(...)` of the alert refresh. */
  function SelectInIndia(events: seq<Event>): (r: seq<Event>)
    ensures |r| <= |events|
    ensures forall k | 0 <= k < |r| :: Qualifies(r[k]) && r[k] in events
  {
    Filter(events, Qualifies)
  }

  /** The selection is the stable subsequence of the qualifying events. */
  lemma SelectionIsOrderedSubsequence(events: seq<Event>)
    ensures exists idx :: SelectsKept(idx, events, Qualifies) && ReadsAt(SelectInIndia(events), idx, events)
  {
    FilterIsOrderedSubsequence(events, Qualifies);
  }

  /** Every qualifying input event is in the output. */
  lemma KeepsQualifying(events: seq<Event>, i: nat)
    requires i < |events| && Qualifies(events[i])
    ensures events[i] in SelectInIndia(events)
  {
    PositionsRead(events, Qualifies);
    PositionsMembers(events, Qualifies, i);
    var idx := Positions(events, Qualifies);
    var k :| 0 <= k < |idx| && idx[k] == i;
    assert SelectInIndia(events)[k] == events[i];
  }

  /** Selecting from two lists one after the other keeps their order. */
  lemma SelectAppend(a: seq<Event>, b: seq<Event>)
    ensures SelectInIndia(a + b) == SelectInIndia(a) + SelectInIndia(b)
  {
    FilterAppend(a, b, Qualifies);
  }

  /** An event with an empty or absent geometry list is never selected. */
  lemma NoGeometryExcluded(events: seq<Event>, ev: Event)
    requires ev.geometry == None || ev.geometry == Some([])
    ensures ev !in SelectInIndia(events)
  {
  }

  /** Events [A, B, C] where A and C qualify and B does not select [A, C]. */
  lemma OrderScenario(a: Event, b: Event, c: Event)
    requires Qualifies(a) && !Qualifies(b) && Qualifies(c)
    ensures SelectInIndia([a, b, c]) == [a, c]
  {
    assert [a, b, c][1..] == [b, c];
    assert [b, c][1..] == [c];
    assert [c][1..] == [];
    assert SelectInIndia([c]) == [c];
    assert SelectInIndia([b, c]) == [c];
  }

  /** The parsed feed body `data`.
      - Envelope: an object; `events` is its `events` field, None when that
        field is absent or falsy.
      - BareList: a bare array of events.
      - FalsyScalar: 0, "" or false.
      - Unusable: null, or a truthy number, string or boolean. */
  datatype Feed = Envelope(events: Option<seq<Event>>) | BareList(items: seq<Event>) | FalsyScalar | Unusable

  /** `const events = data.events || data || []` and the `.filter` call on it:
      `null.events` throws, and so does `.filter` on a value that is not an
      array; the caller catches either and renders nothing. */
  function AlertsInIndia(data: Feed): (r: Completion<seq<Event>>)
    ensures r.Throw? <==> data.Unusable? || data == Envelope(None)
    ensures r.Normal? ==> forall k | 0 <= k < |r.value| :: Qualifies(r.value[k])
    ensures data.BareList? ==> r == Normal(SelectInIndia(data.items))
    ensures data.Envelope? && data.events.Some? ==> r == Normal(SelectInIndia(data.events.value))
    ensures data.FalsyScalar? ==> r == Normal([])
  {
    match data
    case Envelope(Some(es)) => Normal(SelectInIndia(es))
    case Envelope(None) => Throw  // `data` itself is an object without `.filter`
    case BareList(es) => Normal(SelectInIndia(es))
    case FalsyScalar => Normal([])
    case Unusable => Throw
  }
}
