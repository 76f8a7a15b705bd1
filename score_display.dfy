/**
 * The `ScoreDisplay` component: the loader's state held in fields and changed
 * in place by the source watcher, the asynchronous completions and the page
 * scheduler; and the click-to-seek path from a measure to the audio engine.
 */
module Display {
  import opened Wrappers
  import opened Loader
  import opened PositionIndex
  import opened Playback

  class ScoreDisplay {
    /** `AsWritten` behaves as the code does; `Corrected` applies the fixes listed under Findings. */
    const variant: Variant
    var scoreSrc: string
    var loadToken: nat
    var scoreMeta: Option<MetaJson>
    var errored: bool
    var graphics: Option<seq<PageState>>
    var mposText: Option<string>

    /** The fields as a loader state. */
    function State(): LoaderState
      reads this
    {
      LoaderState(scoreSrc, loadToken, scoreMeta, errored, graphics, mposText)
    }

    /** `loaded`: the metadata has been committed. */
    predicate IsLoaded(): (b: bool)
      reads this
      ensures b <==> State().meta.Some?
    {
      scoreMeta.Some?
    }

    constructor (variant: Variant)
      ensures State() == Initial && this.variant == variant
    {
      this.variant := variant;
      scoreSrc, loadToken, scoreMeta, errored, graphics, mposText := "", 0, None, false, None, None;
    }

    /**
     * The source watcher: on a new `src`, clear the score and mint a token;
     * the metadata and position loads then started carry that token.
     */
    method SrcChanged(src: string)
      modifies this
      ensures State() == Step(old(State()), Loader.SrcChanged(src), variant)
    {
      if scoreSrc == src {
        return;
      }
      scoreSrc := src;
      scoreMeta := None;
      loadToken := loadToken + 1;
      graphics := None;
      mposText := None;
      errored := false;
    }

    /** The metadata load completed with `meta`: committed only for the current token. */
    method MetaParsed(token: nat, meta: MetaJson)
      requires Admissible(State(), Loader.MetaParsed(token, meta))
      modifies this
      ensures State() == Step(old(State()), Loader.MetaParsed(token, meta), variant)
    {
      if token == loadToken {
        if meta.pages.None? && meta.metadata.Some? {
          scoreMeta := meta.metadata;
        } else {
          scoreMeta := Some(meta);
        }
        var slots := PageSlots(scoreMeta.value);
        if slots.Some? {
          graphics := slots;
        } else {
          errored := true;
        }
      }
    }

    /**
     * Decoding the metadata threw: the score is marked failed; as written
     * whatever the token, corrected only for the current one.
     */
    method MetaFailed(token: nat)
      requires Admissible(State(), Loader.MetaFailed(token))
      modifies this
      ensures State() == Step(old(State()), Loader.MetaFailed(token), variant)
    {
      if variant == Corrected && token != loadToken {
        return;
      }
      errored := true;
    }

    /** The position file was read: committed only for the current token. */
    method MposLoaded(token: nat, text: string)
      requires Admissible(State(), Loader.MposLoaded(token, text))
      modifies this
      ensures State() == Step(old(State()), Loader.MposLoaded(token, text), variant)
    {
      if token == loadToken {
        mposText := Some(text);
      }
    }

    /** `tryLoadGraphic`: marks a not-requested page as loading and reports whether a load started. */
    method TryLoadGraphic(pageId: nat) returns (started: bool)
      requires graphics.Some? && pageId < |graphics.value|
      modifies this`graphics
      ensures started == (old(graphics).value[pageId] == NotRequested)
      ensures graphics == Some(if started then old(graphics).value[pageId := Loading] else old(graphics).value)
    {
      if graphics.value[pageId] != NotRequested {
        return false;
      }
      graphics := Some(graphics.value[pageId := Loading]);
      started := true;
    }

    /** A page's text was read: committed only for the current token. */
    method PageLoaded(token: nat, pageId: nat, svg: string)
      requires Admissible(State(), Loader.PageLoaded(token, pageId, svg))
      modifies this
      ensures State() == Step(old(State()), Loader.PageLoaded(token, pageId, svg), variant)
    {
      if token != loadToken {
        return;
      }
      graphics := Some(graphics.value[pageId := Loaded(svg)]);
    }

    /** The delayed retry after a failed page read: the page becomes requestable again. */
    method RetryFired(token: nat, pageId: nat)
      requires Admissible(State(), Loader.RetryFired(token, pageId))
      modifies this
      ensures State() == Step(old(State()), Loader.RetryFired(token, pageId), variant)
    {
      if token != loadToken {
        return;
      }
      graphics := Some(graphics.value[pageId := NotRequested]);
    }

    /**
     * The scheduler's count of loading pages.  As written, the loop runs over
     * the array's keys "0", "1", ..., and only "0" loosely equals `false`.
     */
    method CountLoadingPages() returns (count: nat)
      requires graphics.Some?
      ensures count == InitialLoadingCount(graphics.value, variant)
      ensures variant == Corrected ==> count == CountLoading(graphics.value)
    {
      var g := graphics.value;
      count := 0;
      for key := 0 to |g|
        invariant count == InitialLoadingCount(g[..key], variant)
      {
        assert g[..key + 1][..key] == g[..key];
        if variant == AsWritten {
          if key == 0 {
            count := count + 1;
          }
        } else if g[key] == Loading {
          count := count + 1;
        }
      }
      assert g[..|g|] == g;
    }

    /**
     * The scheduler effect: count the loading pages (as written, with a loop
     * over the array's keys), then start not-requested pages in index order
     * until the count reaches 3.  Returns the pages it started.
     */
    method EvaluateScheduler() returns (started: seq<nat>)
      modifies this
      ensures State() == Step(old(State()), SchedulerRun, variant)
      ensures forall k :: 0 <= k < |started| ==>
                old(graphics).Some? && started[k] < |old(graphics).value| &&
                old(graphics).value[started[k]] == NotRequested && graphics.value[started[k]] == Loading
      ensures forall k, l :: 0 <= k < l < |started| ==> started[k] < started[l]
    {
      started := [];
      if !IsLoaded() || graphics.None? {
        return;
      }
      ghost var g0 := graphics.value;
      var n := |graphics.value|;
      var loadingCount := CountLoadingPages();
      ghost var budget := Budget(InitialLoadingCount(g0, variant));
      ghost var target := Admit(g0, budget);
      var i := 0;
      while i < n
        invariant 0 <= i <= n
        invariant graphics.Some? && |graphics.value| == n
        invariant forall j :: 0 <= j < i ==> graphics.value[j] == target[j]
        invariant forall j :: i <= j < n ==> graphics.value[j] == g0[j]
        invariant loadingCount == InitialLoadingCount(g0, variant) + Min(CountNotRequested(g0[..i]), budget)
        invariant forall k :: 0 <= k < |started| ==> started[k] < i && g0[started[k]] == NotRequested && target[started[k]] == Loading
        invariant forall k, l :: 0 <= k < l < |started| ==> started[k] < started[l]
        invariant scoreSrc == old(scoreSrc) && loadToken == old(loadToken) && scoreMeta == old(scoreMeta)
        invariant errored == old(errored) && mposText == old(mposText)
      {
        if loadingCount >= MaxLoading {
          break;
        }
        assert g0[..i + 1][..i] == g0[..i];
        if graphics.value[i] == NotRequested {
          loadingCount := loadingCount + 1;
          var _ := TryLoadGraphic(i);
          started := started + [i];
        }
        i := i + 1;
      }
      forall j | i <= j < n ensures graphics.value[j] == target[j] {
        CountNotRequestedMonotone(g0, i, j);
      }
      assert graphics.value == target;
    }
  }

  /** Distance between two times. */
  function Distance(a: real, b: real): real
  {
    if a - b < 0.0 then b - a else a - b
  }

  /** `times[k]` is closest to `now`, and no earlier time is as close. */
  predicate IsFirstClosest(times: seq<real>, now: real, k: int)
  {
    && 0 <= k < |times|
    && (forall j :: 0 <= j < |times| ==> Distance(times[k], now) <= Distance(times[j], now))
    && (forall j :: 0 <= j < k ==> Distance(times[k], now) < Distance(times[j], now))
  }

  /** At most one index is the first closest, so the choice is deterministic. */
  lemma FirstClosestIsUnique(times: seq<real>, now: real, k: int)
    requires IsFirstClosest(times, now, k)
    ensures forall l :: 0 <= l < |times| && l != k ==> !IsFirstClosest(times, now, l)
  {
    forall l | 0 <= l < |times| && l != k
      ensures !IsFirstClosest(times, now, l)
    {
      if l < k {
        assert Distance(times[k], now) < Distance(times[l], now);
      } else {
        assert Distance(times[k], now) <= Distance(times[l], now);
      }
    }
  }

  /** A measure sounding at 2, 5 and 9 seconds, clicked at 6 seconds, seeks to 5. */
  lemma SelectsNearestExample()
    ensures IsFirstClosest([2.0, 5.0, 9.0], 6.0, 1)
    ensures forall k :: IsFirstClosest([2.0, 5.0, 9.0], 6.0, k) ==> k == 1
  {
    FirstClosestIsUnique([2.0, 5.0, 9.0], 6.0, 1);
  }

  /** Equally distant times: the one listed first (the earlier, as times come in order) wins. */
  lemma TieGoesToEarlierExample()
    ensures IsFirstClosest([4.0, 8.0], 6.0, 0)
    ensures !IsFirstClosest([4.0, 8.0], 6.0, 1)
  {
  }

  /**
   * `selectTimes`: without an audio engine or without times, nothing; otherwise
   * the time closest to `now`, the earliest listed among equally close ones.
   */
  method SelectTimes(times: seq<real>, hasAudio: bool, now: real) returns (target: Option<real>)
    ensures target.None? <==> !hasAudio || times == []
    ensures target.Some? ==> exists k :: IsFirstClosest(times, now, k) && target.value == times[k]
  {
    if !hasAudio || |times| == 0 {
      return None;
    }
    var bestTime := -1.0;
    var bestDiff: Option<real> := None;  // none stands for Infinity
    ghost var best := -1;
    for k := 0 to |times|
      invariant bestDiff.None? <==> k == 0
      invariant k > 0 ==> 0 <= best < k && bestTime == times[best] && bestDiff == Some(Distance(times[best], now))
      invariant k > 0 ==> forall j :: 0 <= j < k ==> Distance(times[best], now) <= Distance(times[j], now)
      invariant k > 0 ==> forall j :: 0 <= j < best ==> Distance(times[best], now) < Distance(times[j], now)
    {
      var diff := times[k] - now;
      if diff < 0.0 {
        diff := -diff;
      }
      if bestDiff.None? || diff < bestDiff.value {
        bestDiff := Some(diff);
        bestTime := times[k];
        best := k;
      }
    }
    target := Some(bestTime);
    assert IsFirstClosest(times, now, best);
  }

  /**
   * A click on a measure: gather the element's times, pick the closest to the
   * engine's position and seek there (clamped by `setProgress`).  Only the
   * current instance's position changes: its playing flag, the other
   * instances, the track and `loaded` stay as they were.
   */
  method ClickToSeek(events: seq<Event>, elid: string, playback: ScorePlayback)
      returns (target: Option<real>)
    requires playback.Valid()
    modifies playback
    ensures playback.Valid()
    ensures target.None? <==> TimesOf(events, elid) == []
    ensures target.None? ==> playback.instances == old(playback.instances)
    ensures target.Some? ==>
              && (exists k :: IsFirstClosest(TimesOf(events, elid), old(playback.CurrentTime()), k) &&
                             target.value == TimesOf(events, elid)[k])
              && playback.CurrentTime() == Clamp(target.value, old(playback.Audio().duration))
    ensures target.Some? ==>
              playback.instances == old(playback.instances)[|old(playback.instances)| - 1 :=
                old(playback.Audio()).(pos := Clamp(target.value, old(playback.Audio().duration)))]
    ensures playback.currentTrackIndex == old(playback.currentTrackIndex) && playback.loaded == old(playback.loaded)
  {
    var times := SelectElement(events, elid);
    target := SelectTimes(times, true, playback.CurrentTime());
    if target.Some? {
      var _ := playback.SetProgress(target.value);
    }
  }
}
