/**
 * The position index of one score: the event table (which element sounds at
 * which time) and the element table (where each measure sits on which page),
 * built from the records of the `measures.mpos` file.  The XML parsing itself
 * is not modelled; the records arrive already parsed, in document order.
 */
module PositionIndex {

  /** An `<event elid position>` record; `position` is in milliseconds. */
  datatype EventRecord = EventRecord(elid: string, position: real)

  /** An `<element id x y sx sy page>` record; coordinates are in twelfths of a pixel. */
  datatype ElementRecord = ElementRecord(id: string, x: real, y: real, sx: real, sy: real, page: int)

  /** One row of the event table: the element that starts sounding at `time` seconds. */
  datatype Event = Event(elid: string, time: real)

  /** One entry of the element table, in pixels. */
  datatype Element = Element(elid: string, pos: (real, real), size: (real, real), page: int)

  /** Units of the position file per pixel. */
  const PosScale: real := 12.0

  /** Smallest width of a clickable element, in pixels. */
  const MinWidth: real := 64.0

  /** Event times are sorted ascending, as the highlighter's walk expects. */
  predicate Sorted(events: seq<Event>)
  {
    forall i, j :: 0 <= i < j < |events| ==> events[i].time <= events[j].time
  }

  /** Positions in the file are ascending. */
  predicate PositionsAscending(records: seq<EventRecord>)
  {
    forall i, j :: 0 <= i < j < |records| ==> records[i].position <= records[j].position
  }

  /** The event row for one record: milliseconds become seconds. */
  function EventOf(r: EventRecord): (e: Event)
    ensures e.elid == r.elid
    ensures e.time * 1000.0 == r.position
  {
    Event(r.elid, r.position / 1000.0)
  }

  /** The element entry for one record: coordinates scaled to pixels, width raised to `MinWidth`. */
  function ElementOf(r: ElementRecord): (e: Element)
    ensures e.elid == r.id && e.page == r.page
    ensures e.pos.0 * PosScale == r.x && e.pos.1 * PosScale == r.y
    ensures e.size.1 * PosScale == r.sy
    ensures e.size.0 >= MinWidth
    ensures r.sx >= MinWidth * PosScale ==> e.size.0 * PosScale == r.sx
    ensures r.sx < MinWidth * PosScale ==> e.size.0 == MinWidth
  {
    var width := r.sx / PosScale;
    Element(r.id, (r.x / PosScale, r.y / PosScale),
            (if width < MinWidth then MinWidth else width, r.sy / PosScale), r.page)
  }

  /** The event table: one row per record, in document order. */
  function EventsOf(records: seq<EventRecord>): (events: seq<Event>)
    ensures |events| == |records|
    ensures forall i :: 0 <= i < |records| ==> events[i] == EventOf(records[i])
  {
    seq(|records|, i requires 0 <= i < |records| => EventOf(records[i]))
  }

  /**
   * The element table: every id that occurs in the records, each bound to the
   * entry built from its last record (a later record overwrites an earlier one).
   */
  function ElementsOf(records: seq<ElementRecord>): (elements: map<string, Element>)
    ensures elements.Keys == set i | 0 <= i < |records| :: records[i].id
    ensures forall id :: id in elements ==> elements[id].elid == id && elements[id].size.0 >= MinWidth
  {
    if records == [] then map[]
    else
      var last := records[|records| - 1];
      ElementsOf(records[..|records| - 1])[last.id := ElementOf(last)]
  }

  /** The entry of an id is built from the last record that carries it. */
  lemma {:induction false} LastRecordWins(records: seq<ElementRecord>, i: int)
    requires 0 <= i < |records|
    requires forall j :: i < j < |records| ==> records[j].id != records[i].id
    ensures records[i].id in ElementsOf(records)
    ensures ElementsOf(records)[records[i].id] == ElementOf(records[i])
  {
    if i < |records| - 1 {
      var front := records[..|records| - 1];
      assert forall j :: i < j < |front| ==> front[j] == records[j];
      LastRecordWins(front, i);
    }
  }

  /** Event times are ascending exactly when the file's positions are. */
  lemma EventsSortedIffPositionsAscending(records: seq<EventRecord>)
    ensures Sorted(EventsOf(records)) <==> PositionsAscending(records)
  {
    var events := EventsOf(records);
    if PositionsAscending(records) {
      forall i, j | 0 <= i < j < |events| ensures events[i].time <= events[j].time {
        assert records[i].position <= records[j].position;
      }
    }
    if Sorted(events) {
      forall i, j | 0 <= i < j < |records| ensures records[i].position <= records[j].position {
        assert events[i].time <= events[j].time;
      }
    }
  }

  /** Builds the event table with the source's push loop. */
  method BuildEvents(items: seq<EventRecord>) returns (events: seq<Event>)
    ensures events == EventsOf(items)
  {
    events := [];
    for i := 0 to |items|
      invariant events == EventsOf(items[..i])
    {
      events := events + [EventOf(items[i])];
    }
    assert items[..|items|] == items;
  }

  /** Builds the element table with the source's loop over records. */
  method BuildElements(items: seq<ElementRecord>) returns (elements: map<string, Element>)
    ensures elements == ElementsOf(items)
  {
    elements := map[];
    for i := 0 to |items|
      invariant elements == ElementsOf(items[..i])
    {
      assert items[..i + 1][..i] == items[..i];
      elements := elements[items[i].id := ElementOf(items[i])];
    }
    assert items[..|items|] == items;
  }

  /** The times of the events of `elid`, in event order (the source's filter). */
  function TimesOf(events: seq<Event>, elid: string): (times: seq<real>)
    ensures |times| <= |events|
  {
    if events == [] then []
    else
      var last := events[|events| - 1];
      TimesOf(events[..|events| - 1], elid) + (if last.elid == elid then [last.time] else [])
  }

  /** The ascending indices of the events of `elid`: the reference for `TimesOf`. */
  function MatchIndices(events: seq<Event>, elid: string): (idx: seq<int>)
    ensures forall k :: 0 <= k < |idx| ==> 0 <= idx[k] < |events| && events[idx[k]].elid == elid
    ensures forall k, l :: 0 <= k < l < |idx| ==> idx[k] < idx[l]
    ensures forall i :: 0 <= i < |events| && events[i].elid == elid ==> i in idx
  {
    if events == [] then []
    else
      var n := |events| - 1;
      MatchIndices(events[..n], elid) + (if events[n].elid == elid then [n] else [])
  }

  /** `TimesOf` lists exactly the times of the matching events, in event order. */
  lemma {:induction false} TimesOfMatchingEvents(events: seq<Event>, elid: string)
    ensures |TimesOf(events, elid)| == |MatchIndices(events, elid)|
    ensures forall k :: 0 <= k < |MatchIndices(events, elid)| ==>
              TimesOf(events, elid)[k] == events[MatchIndices(events, elid)[k]].time
  {
    if events != [] {
      var n := |events| - 1;
      TimesOfMatchingEvents(events[..n], elid);
    }
  }

  /** An element no event refers to has no times. */
  lemma NoMatchNoTimes(events: seq<Event>, elid: string)
    requires forall i :: 0 <= i < |events| ==> events[i].elid != elid
    ensures TimesOf(events, elid) == []
  {
    TimesOfMatchingEvents(events, elid);
  }

  /** `selectElement`: collects the times of every event of `elid`, in order. */
  method SelectElement(events: seq<Event>, elid: string) returns (times: seq<real>)
    ensures times == TimesOf(events, elid)
  {
    times := [];
    for i := 0 to |events|
      invariant times == TimesOf(events[..i], elid)
    {
      assert events[..i + 1][..i] == events[..i];
      if events[i].elid == elid {
        times := times + [events[i].time];
      }
    }
    assert events[..|events|] == events;
  }
}
