/**
 * The time-sync step of the pages display: given the playback time, find the
 * event being played.  The source keeps a cursor into the event table between
 * frames and walks it back, then forward, from where it stopped last time.
 */
module Highlighter {
  import opened Wrappers
  import opened PositionIndex

  /**
   * The reference answer, by a scan of the whole table: the greatest index
   * whose event time is at or before `t`, or -1 when every event is later.
   */
  function LastAtOrBefore(events: seq<Event>, t: real): (r: int)
    ensures -1 <= r < |events|
    ensures r >= 0 ==> events[r].time <= t
    ensures forall j :: r < j < |events| ==> t < events[j].time
  {
    if events == [] then -1
    else if events[|events| - 1].time <= t then |events| - 1
    else LastAtOrBefore(events[..|events| - 1], t)
  }

  /** The element at index `i`, or none for -1. */
  function ElidAt(events: seq<Event>, i: int): Option<string>
    requires -1 <= i < |events|
  {
    if i < 0 then None else Some(events[i].elid)
  }

  /** The stored cursor, reset to 0 when it is out of range (including the stored -1). */
  function StartIndex(events: seq<Event>, cursor: int): (i: int)
    requires |events| > 0
    ensures 0 <= i < |events|
    ensures 0 <= cursor < |events| ==> i == cursor
    ensures !(0 <= cursor < |events|) ==> i == 0
  {
    if cursor < 0 || cursor >= |events| then 0 else cursor
  }

  /** The backward walk: step back while the event at `i` is later than `t`. */
  function WalkBack(events: seq<Event>, i: int, t: real): (r: int)
    requires -1 <= i < |events|
    ensures -1 <= r <= i
    ensures r >= 0 ==> events[r].time <= t
    ensures forall j :: r < j <= i ==> t < events[j].time
    decreases i + 1
  {
    if i >= 0 && t < events[i].time then WalkBack(events, i - 1, t) else i
  }

  /** The forward walk: step on while the next event is at or before `t`. */
  function WalkForward(events: seq<Event>, i: int, t: real): (r: int)
    requires -1 <= i < |events|
    ensures i <= r < |events|
    ensures r < |events| - 1 ==> t < events[r + 1].time
    ensures forall j :: i < j <= r ==> events[j].time <= t
    decreases |events| - i
  {
    if i < |events| - 1 && t >= events[i + 1].time then WalkForward(events, i + 1, t) else i
  }

  /**
   * Where the cursor ends up.  Whatever the order of the table, the walk stops
   * at an index whose event is at or before `t` (or at -1) and whose successor
   * is after `t`.
   */
  function Walk(events: seq<Event>, cursor: int, t: real): (r: int)
    requires |events| > 0
    ensures -1 <= r < |events|
    ensures r >= 0 ==> events[r].time <= t
    ensures r < |events| - 1 ==> t < events[r + 1].time
  {
    WalkForward(events, WalkBack(events, StartIndex(events, cursor), t), t)
  }

  /** On a sorted table the walk from any cursor finds what the full scan finds. */
  lemma WalkFindsLastAtOrBefore(events: seq<Event>, cursor: int, t: real)
    requires |events| > 0 && Sorted(events)
    ensures Walk(events, cursor, t) == LastAtOrBefore(events, t)
  {
    var r, s := Walk(events, cursor, t), LastAtOrBefore(events, t);
    // Every index up to r is at or before t, every index after it is later.
    assert forall j :: 0 <= j <= r ==> events[j].time <= t;
    assert forall j :: r < j < |events| ==> t < events[j].time;
  }

  /** Resolving the same time again leaves the cursor where the first walk put it. */
  lemma WalkIsIdempotent(events: seq<Event>, cursor: int, t: real)
    requires |events| > 0
    ensures Walk(events, Walk(events, cursor, t), t) == Walk(events, cursor, t)
  {
    var r := Walk(events, cursor, t);
    if r < 0 {
      assert t < events[0].time;
      assert WalkBack(events, 0, t) == WalkBack(events, -1, t) == -1;
    } else {
      assert WalkBack(events, r, t) == r;
    }
  }

  /** The source's `highlighterIndex`: the cursor kept between frames. */
  class HighlighterIndex {
    var current: int

    constructor ()
      ensures current == 0
    {
      current := 0;
    }

    /**
     * `highlighterElid`: the element being played at `audioTime`.  Without a
     * time or without events it answers none and leaves the cursor alone;
     * otherwise it stores where the walk stopped, which may be -1.
     */
    method HighlighterElid(eventList: seq<Event>, audioTime: Option<real>) returns (elid: Option<string>)
      modifies this
      ensures audioTime.None? || eventList == [] ==> elid == None && current == old(current)
      ensures audioTime.Some? && eventList != [] ==>
                current == Walk(eventList, old(current), audioTime.value) && elid == ElidAt(eventList, current)
      ensures audioTime.Some? && Sorted(eventList) ==>
                elid == ElidAt(eventList, LastAtOrBefore(eventList, audioTime.value))
    {
      if audioTime.None? || |eventList| == 0 {
        return None;
      }
      var t := audioTime.value;
      var i := current;
      if i < 0 || i >= |eventList| {
        i := 0;
      }
      ghost var start := i;
      // Back
      while i >= 0 && t < eventList[i].time
        invariant -1 <= i <= start
        invariant WalkBack(eventList, i, t) == WalkBack(eventList, start, t)
        decreases i + 1
      {
        i := i - 1;
      }
      ghost var back := i;
      // Forward
      while i < |eventList| - 1 && t >= eventList[i + 1].time
        invariant back <= i < |eventList|
        invariant WalkForward(eventList, i, t) == WalkForward(eventList, back, t)
        decreases |eventList| - i
      {
        i := i + 1;
      }
      current := i;
      if i < 0 {
        elid := None;
      } else {
        elid := Some(eventList[i].elid);
      }
      if Sorted(eventList) {
        WalkFindsLastAtOrBefore(eventList, old(current), t);
      }
    }
  }
}
