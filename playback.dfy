/**
 * The playback controls over an abstract audio engine.  Each track switch
 * creates a fresh engine instance; an instance is modelled by its observable
 * state (playing, position, duration) and by what it inherited from the
 * instance it replaced, which it applies once it has loaded.
 */
module Playback {
  import opened Wrappers

  /**
   * One engine instance: `track` is the track it plays; `carryPos` and
   * `carryPlay` are the position and playing flag taken over from the
   * instance before it.
   */
  datatype Player = Player(track: nat, playing: bool, pos: real, duration: real, carryPos: real, carryPlay: bool)

  /** `setProgress`'s clamp: first down to the duration, then up to 0. */
  function Clamp(time: real, duration: real): (r: real)
    ensures duration >= 0.0 ==> 0.0 <= r <= duration
    ensures 0.0 <= time <= duration ==> r == time
    ensures duration >= 0.0 && time > duration ==> r == duration
    ensures time < 0.0 ==> r == 0.0
  {
    var t := if time > duration then duration else time;
    if t < 0.0 then 0.0 else t
  }

  /** A fresh, not yet loaded instance for `track` that takes over `previous`'s state. */
  function Successor(previous: Player, track: nat): (p: Player)
    ensures p.track == track && !p.playing && p.pos == 0.0 && p.duration == 0.0
    ensures p.carryPos == previous.pos && p.carryPlay == previous.playing
  {
    Player(track, false, 0.0, 0.0, previous.pos, previous.playing)
  }

  /** The instance once its `onload` has run: it seeks to the inherited position and resumes if it should. */
  function Loaded(p: Player, duration: real): (q: Player)
    ensures q.track == p.track && q.duration == duration && q.pos == p.carryPos
    ensures q.playing == (p.playing || p.carryPlay)
  {
    p.(duration := duration, pos := p.carryPos, playing := p.playing || p.carryPlay)
  }

  /** A track switch followed by the new instance's load restores the old position and playing flag. */
  lemma CarryOverRestoresState(previous: Player, track: nat, duration: real)
    ensures Loaded(Successor(previous, track), duration).pos == previous.pos
    ensures Loaded(Successor(previous, track), duration).playing == previous.playing
  {
  }

  /** The `ScorePlayback` component. */
  class ScorePlayback {
    const trackCount: nat
    var currentTrackIndex: nat
    /** Every engine instance created so far; the last one is the current `audio`. */
    var instances: seq<Player>
    var loaded: bool

    ghost predicate Valid()
      reads this
    {
      0 < trackCount && currentTrackIndex < trackCount && |instances| > 0 &&
      instances[|instances| - 1].track == currentTrackIndex
    }

    /** The current engine instance. */
    function Audio(): Player
      reads this
      requires |instances| > 0
    {
      instances[|instances| - 1]
    }

    /** `getProgress`: the current instance's position. */
    function CurrentTime(): (r: real)
      reads this
      requires |instances| > 0
      ensures r == instances[|instances| - 1].pos
    {
      Audio().pos
    }

    /**
     * The time the frame loop reports: the position while playing.  `None`
     * here means nothing is emitted, so the listener keeps the last time it
     * received.
     */
    function ReportedTime(): (r: Option<real>)
      reads this
      requires |instances| > 0
      ensures r.Some? <==> Audio().playing
      ensures r.Some? ==> r.value == Audio().pos
    {
      if Audio().playing then Some(Audio().pos) else None
    }

    /** The component is mounted only with at least one track; it starts on track 0, not loaded. */
    constructor (trackCount: nat)
      requires trackCount > 0
      ensures Valid() && this.trackCount == trackCount
      ensures currentTrackIndex == 0 && !loaded
      ensures instances == [Player(0, false, 0.0, 0.0, 0.0, false)]
    {
      this.trackCount := trackCount;
      currentTrackIndex := 0;
      instances := [Player(0, false, 0.0, 0.0, 0.0, false)];
      loaded := false;
    }

    /**
     * `nextTrack`: cycles the track index; when it changes, the current
     * instance is paused and a successor that inherits its state replaces it.
     */
    method NextTrack()
      requires Valid()
      modifies this
      ensures Valid()
      ensures currentTrackIndex == (old(currentTrackIndex) + 1) % trackCount
      ensures currentTrackIndex == old(currentTrackIndex) ==> instances == old(instances) && loaded == old(loaded)
      ensures currentTrackIndex != old(currentTrackIndex) ==>
                && !loaded
                && instances == old(instances)[|old(instances)| - 1 := old(Audio()).(playing := false)]
                                + [Successor(old(Audio()), currentTrackIndex)]
    {
      var next := (currentTrackIndex + 1) % trackCount;
      if next == currentTrackIndex {
        return;
      }
      currentTrackIndex := next;
      var previous := Audio();
      instances := instances[|instances| - 1 := previous.(playing := false)] + [Successor(previous, next)];
      loaded := false;
    }

    /**
     * The `onload` callback of instance `k`, with the duration the engine
     * found.  There is no check that `k` is still the current instance, so a
     * late load of a replaced instance marks the component loaded too.
     */
    method OnLoad(k: nat, duration: real)
      requires Valid() && k < |instances| && duration >= 0.0
      modifies this
      ensures Valid() && loaded
      ensures instances == old(instances)[k := Loaded(old(instances)[k], duration)]
      ensures currentTrackIndex == old(currentTrackIndex)
    {
      loaded := true;
      instances := instances[k := Loaded(instances[k], duration)];
    }

    /** The `onend` callback of instance `k`: pause and stay at the end. */
    method OnEnd(k: nat)
      requires Valid() && k < |instances|
      modifies this
      ensures Valid()
      ensures instances == old(instances)[k := old(instances)[k].(playing := false, pos := old(instances)[k].duration)]
      ensures currentTrackIndex == old(currentTrackIndex) && loaded == old(loaded)
    {
      instances := instances[k := instances[k].(playing := false, pos := instances[k].duration)];
    }

    /**
     * `playPause`: nothing until loaded; pauses a playing instance; otherwise
     * plays, rewinding to 0 first when it stands at the end.
     */
    method PlayPause()
      requires Valid()
      modifies this
      ensures Valid()
      ensures !old(loaded) ==> instances == old(instances)
      ensures old(loaded) ==>
                var a := old(Audio());
                instances == old(instances)[|old(instances)| - 1 :=
                  if a.playing then a.(playing := false)
                  else if a.pos == a.duration then a.(playing := true, pos := 0.0)
                  else a.(playing := true)]
      ensures old(loaded) ==> Audio().playing == !old(Audio()).playing
      ensures currentTrackIndex == old(currentTrackIndex) && loaded == old(loaded)
    {
      if !loaded {
        return;
      }
      var a := Audio();
      if !a.playing {
        if a.pos == a.duration {
          a := a.(pos := 0.0);
        }
        a := a.(playing := true);
      } else {
        a := a.(playing := false);
      }
      instances := instances[|instances| - 1 := a];
    }

    /**
     * `stop`: pause and seek to 0.  It emits `null` as the time, which clears
     * the listener's time and so the highlight; `reported == None` stands for
     * that emitted `null`, unlike the `None` of `ReportedTime`.
     */
    method Stop() returns (reported: Option<real>)
      requires Valid()
      modifies this
      ensures Valid() && reported == None
      ensures instances == old(instances)[|old(instances)| - 1 := old(Audio()).(playing := false, pos := 0.0)]
      ensures currentTrackIndex == old(currentTrackIndex) && loaded == old(loaded)
    {
      instances := instances[|instances| - 1 := Audio().(playing := false, pos := 0.0)];
      reported := None;
    }

    /** `setProgress`: seek to `time` clamped into [0, duration] and report the clamped time. */
    method SetProgress(time: real) returns (reported: real)
      requires Valid()
      modifies this
      ensures Valid()
      ensures reported == Clamp(time, old(Audio()).duration)
      ensures instances == old(instances)[|old(instances)| - 1 := old(Audio()).(pos := reported)]
      ensures currentTrackIndex == old(currentTrackIndex) && loaded == old(loaded)
    {
      var t := time;
      if t > Audio().duration {
        t := Audio().duration;
      }
      if t < 0.0 {
        t := 0.0;
      }
      instances := instances[|instances| - 1 := Audio().(pos := t)];
      reported := t;
    }

    /** `addProgress`: a seek relative to the current position. */
    method AddProgress(delta: real) returns (reported: real)
      requires Valid()
      modifies this
      ensures Valid()
      ensures reported == Clamp(delta + old(CurrentTime()), old(Audio()).duration)
      ensures instances == old(instances)[|old(instances)| - 1 := old(Audio()).(pos := reported)]
      ensures currentTrackIndex == old(currentTrackIndex) && loaded == old(loaded)
    {
      var newTime := delta + CurrentTime();
      reported := SetProgress(newTime);
    }
  }
}
