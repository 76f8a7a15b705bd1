/**
 * The score loader of `ScoreDisplay` as a state machine.  A change of source
 * mints a new load token; every asynchronous result (metadata, positions, a
 * page, a page retry) carries the token that was current when it started and
 * is committed only if that token is still current.  A level-triggered
 * scheduler starts page loads.
 *
 * Two variants of the transitions exist.  `AsWritten` is the code as it runs.
 * `Corrected` applies the two fixes listed under "Findings" in the README: the
 * scheduler counts the pages that are loading, and a metadata failure is
 * token-checked like every other result.
 */
module Loader {
  import opened Wrappers

  /** A page slot: `null` (not requested), `false` (loading) or the page's SVG text. */
  datatype PageState = NotRequested | Loading | Loaded(svg: string)

  /** The fields of `meta.metajson` the loader reads; `metadata` is a nested metadata object. */
  datatype MetaJson = MetaJson(pages: Option<int>, metadata: Option<MetaJson>)

  /** Largest number of pages the scheduler keeps loading. */
  const MaxLoading: nat := 3

  datatype LoaderState = LoaderState(
    scoreSrc: string,
    loadToken: nat,                        // 0 stands for the initial null; minted tokens are 1, 2, ...
    meta: Option<MetaJson>,                // `scoreMeta`; the score is `loaded` when it is set
    errored: bool,
    graphics: Option<seq<PageState>>,
    mposText: Option<string>)

  const Initial := LoaderState("", 0, None, false, None, None)

  datatype LoaderEvent =
    | SrcChanged(src: string)                         // the `src` watcher runs
    | MetaParsed(token: nat, meta: MetaJson)          // `meta.metajson` decoded
    | MetaFailed(token: nat)                          // decoding `meta.metajson` threw
    | MposLoaded(token: nat, text: string)            // `measures.mpos` read
    | PageLoaded(token: nat, page: nat, svg: string)  // a page's text read
    | RetryFired(token: nat, page: nat)               // the delayed retry of a failed page read
    | SchedulerRun                                    // the scheduler effect runs

  datatype Variant = AsWritten | Corrected

  /** Metadata wrapped in a `metadata` field without its own `pages` is unwrapped. */
  function Normalise(meta: MetaJson): (r: MetaJson)
    ensures meta.pages.Some? ==> r == meta
    ensures meta.pages.None? && meta.metadata.Some? ==> r == meta.metadata.value
    ensures meta.metadata.None? ==> r == meta
  {
    if meta.pages.None? && meta.metadata.Some? then meta.metadata.value else meta
  }

  /**
   * `Array(pages).fill(null)`: a missing page count gives one slot (the array
   * constructor wraps a non-number), a negative one throws (none here).
   */
  function PageSlots(meta: MetaJson): (r: Option<seq<PageState>>)
    ensures meta.pages.None? ==> r == Some([NotRequested])
    ensures meta.pages.Some? && meta.pages.value >= 0 ==>
              r.Some? && |r.value| == meta.pages.value && forall i :: 0 <= i < |r.value| ==> r.value[i] == NotRequested
    ensures meta.pages.Some? && meta.pages.value < 0 ==> r.None?
  {
    match meta.pages
    case None => Some([NotRequested])
    case Some(n) => if n < 0 then None else Some(seq(n, _ => NotRequested))
  }

  function CountLoading(g: seq<PageState>): (r: nat)
    ensures r <= |g|
  {
    if g == [] then 0 else CountLoading(g[..|g| - 1]) + (if g[|g| - 1] == Loading then 1 else 0)
  }

  function CountNotRequested(g: seq<PageState>): nat
  {
    if g == [] then 0 else CountNotRequested(g[..|g| - 1]) + (if g[|g| - 1] == NotRequested then 1 else 0)
  }

  function Min(a: nat, b: nat): nat
  {
    if a <= b then a else b
  }

  /**
   * The count the scheduler starts from.  As written, the counting loop runs
   * over the array's keys "0", "1", ..., and only the key "0" loosely equals
   * `false`, so the count is 1 for any non-empty array.
   */
  function InitialLoadingCount(g: seq<PageState>, v: Variant): (r: nat)
    ensures r <= |g|
    ensures v == AsWritten ==> (r == 1 <==> g != []) && r <= 1
    ensures v == Corrected ==> r == CountLoading(g)
  {
    match v
    case AsWritten => if |g| > 0 then 1 else 0
    case Corrected => CountLoading(g)
  }

  /** How many pages one scheduler run may start after counting `loadingCount`. */
  function Budget(loadingCount: nat): nat
  {
    if loadingCount >= MaxLoading then 0 else MaxLoading - loadingCount
  }

  /**
   * One scheduler pass: a page is started exactly when it is not requested and
   * fewer than `budget` not-requested pages come before it, so the lowest
   * `budget` not-requested pages start, in index order.
   */
  function Admit(g: seq<PageState>, budget: nat): (r: seq<PageState>)
    ensures |r| == |g|
    ensures forall j :: 0 <= j < |g| ==> r[j] == g[j] || (g[j] == NotRequested && r[j] == Loading)
  {
    seq(|g|, j requires 0 <= j < |g| =>
      if g[j] == NotRequested && CountNotRequested(g[..j]) < budget then Loading else g[j])
  }

  /** What the loader's asynchronous results may carry in state `s`. */
  predicate Admissible(s: LoaderState, e: LoaderEvent)
  {
    match e
    case SrcChanged(_) => true
    case SchedulerRun => true
    case MetaParsed(t, _) => 0 < t <= s.loadToken
    case MetaFailed(t) => 0 < t <= s.loadToken
    case MposLoaded(t, _) => 0 < t <= s.loadToken
    case PageLoaded(t, p, _) =>
      0 < t <= s.loadToken && (t == s.loadToken ==> s.graphics.Some? && p < |s.graphics.value|)
    case RetryFired(t, p) =>
      0 < t <= s.loadToken && (t == s.loadToken ==> s.graphics.Some? && p < |s.graphics.value|)
  }

  /** One transition of the loader. */
  function Step(s: LoaderState, e: LoaderEvent, v: Variant): (r: LoaderState)
    requires Admissible(s, e)
    // Only a change of source touches the source and the token; it clears the score.
    ensures !e.SrcChanged? ==> r.scoreSrc == s.scoreSrc && r.loadToken == s.loadToken
    ensures e.SrcChanged? && e.src == s.scoreSrc ==> r == s
    ensures e.SrcChanged? && e.src != s.scoreSrc ==>
              r.scoreSrc == e.src && r.loadToken == s.loadToken + 1 &&
              r.meta.None? && r.graphics.None? && r.mposText.None? && !r.errored
    // Metadata, positions, pages and retries are committed only for the current token.
    ensures (e.MetaParsed? || e.MposLoaded? || e.PageLoaded? || e.RetryFired?) && e.token != s.loadToken ==> r == s
    ensures e.MposLoaded? && e.token == s.loadToken ==> r == s.(mposText := Some(e.text))
    ensures e.PageLoaded? && e.token == s.loadToken ==>
              r.graphics.Some? && e.page < |r.graphics.value| && r.graphics.value[e.page] == Loaded(e.svg)
    // A metadata failure only ever sets the error flag; corrected, only for the current token.
    ensures e.MetaFailed? ==> r == s.(errored := true) || r == s
    ensures e.MetaFailed? && v == Corrected && e.token != s.loadToken ==> r == s
    // The scheduler only turns pages that were not requested into loading pages.
    ensures e.SchedulerRun? ==> r == s.(graphics := r.graphics)
    ensures e.SchedulerRun? && s.graphics.Some? ==> r.graphics.Some? && |r.graphics.value| == |s.graphics.value|
  {
    match e
    case SrcChanged(src) =>
      if src == s.scoreSrc then s
      else LoaderState(src, s.loadToken + 1, None, false, None, None)
    case MetaParsed(t, m) =>
      if t != s.loadToken then s
      else
        var meta := Normalise(m);
        var slots := PageSlots(meta);
        if slots.Some? then s.(meta := Some(meta), graphics := slots)
        else s.(meta := Some(meta), errored := true)
    case MetaFailed(t) =>
      if v == Corrected && t != s.loadToken then s else s.(errored := true)
    case MposLoaded(t, text) =>
      if t != s.loadToken then s else s.(mposText := Some(text))
    case PageLoaded(t, p, svg) =>
      if t != s.loadToken then s else s.(graphics := Some(s.graphics.value[p := Loaded(svg)]))
    case RetryFired(t, p) =>
      if t != s.loadToken then s else s.(graphics := Some(s.graphics.value[p := NotRequested]))
    case SchedulerRun =>
      if s.meta.None? || s.graphics.None? then s
      else
        var g := s.graphics.value;
        s.(graphics := Some(Admit(g, Budget(InitialLoadingCount(g, v)))))
  }

  predicate AdmissibleTrace(s: LoaderState, trace: seq<LoaderEvent>, v: Variant)
    decreases |trace|
  {
    trace == [] || (Admissible(s, trace[0]) && AdmissibleTrace(Step(s, trace[0], v), trace[1..], v))
  }

  /** The state after the events of `trace`, in order. */
  function Run(s: LoaderState, trace: seq<LoaderEvent>, v: Variant): LoaderState
    requires AdmissibleTrace(s, trace, v)
    decreases |trace|
  {
    if trace == [] then s else Run(Step(s, trace[0], v), trace[1..], v)
  }

  // ---------------------------------------------------------------------
  // Generations

  /** Changing the source starts a new generation: a fresh token and a cleared score. */
  lemma SrcChangeStartsGeneration(s: LoaderState, src: string, v: Variant)
    requires src != s.scoreSrc
    ensures var s' := Step(s, SrcChanged(src), v);
            s'.loadToken > s.loadToken && s'.scoreSrc == src &&
            s'.meta.None? && s'.graphics.None? && s'.mposText.None? && !s'.errored
  {
  }

  /** Tokens only grow, so a token once stale stays stale. */
  lemma TokenNeverDecreases(s: LoaderState, e: LoaderEvent, v: Variant)
    requires Admissible(s, e)
    ensures Step(s, e, v).loadToken >= s.loadToken
  {
  }

  /**
   * A result from a generation older than `t0`.  As written, a metadata
   * failure is not token-checked, so it is not such a result.
   */
  predicate IsOldResult(e: LoaderEvent, t0: nat, v: Variant)
  {
    match e
    case MetaParsed(t, _) => t < t0
    case MposLoaded(t, _) => t < t0
    case PageLoaded(t, _, _) => t < t0
    case RetryFired(t, _) => t < t0
    case MetaFailed(t) => v == Corrected && t < t0
    case _ => false
  }

  function DropOld(trace: seq<LoaderEvent>, t0: nat, v: Variant): seq<LoaderEvent>
  {
    if trace == [] then []
    else (if IsOldResult(trace[0], t0, v) then [] else [trace[0]]) + DropOld(trace[1..], t0, v)
  }

  /** A result from an older generation leaves the state as it is. */
  lemma OldResultIgnored(s: LoaderState, e: LoaderEvent, t0: nat, v: Variant)
    requires Admissible(s, e) && t0 <= s.loadToken && IsOldResult(e, t0, v)
    ensures Step(s, e, v) == s
  {
  }

  /**
   * Results of generations older than the current token never reach the
   * state: whatever order they arrive in among the other events, removing them
   * from the trace changes nothing.
   */
  lemma {:induction false} OldGenerationsIgnored(s: LoaderState, trace: seq<LoaderEvent>, t0: nat, v: Variant)
    requires t0 <= s.loadToken
    requires AdmissibleTrace(s, trace, v)
    ensures AdmissibleTrace(s, DropOld(trace, t0, v), v)
    ensures Run(s, DropOld(trace, t0, v), v) == Run(s, trace, v)
    decreases |trace|
  {
    if trace != [] {
      var e, rest := trace[0], trace[1..];
      if IsOldResult(e, t0, v) {
        OldResultIgnored(s, e, t0, v);
        OldGenerationsIgnored(s, rest, t0, v);
        assert DropOld(trace, t0, v) == DropOld(rest, t0, v);
        assert Run(s, trace, v) == Run(s, rest, v);
      } else {
        var s' := Step(s, e, v);
        OldGenerationsIgnored(s', rest, t0, v);
        var dropped := [e] + DropOld(rest, t0, v);
        assert dropped[0] == e && dropped[1..] == DropOld(rest, t0, v);
      }
    }
  }

  /** As written, a metadata failure of an earlier source still marks the current score as failed. */
  lemma AsWrittenStaleMetaFailureSetsErrored(s: LoaderState, t: nat)
    requires 0 < t < s.loadToken && !s.errored
    ensures Step(s, MetaFailed(t), AsWritten).errored
    ensures Step(s, MetaFailed(t), AsWritten) != s
  {
  }

  // ---------------------------------------------------------------------
  // The scheduler

  lemma {:induction false} CountNotRequestedMonotone(g: seq<PageState>, i: nat, j: nat)
    requires i <= j <= |g|
    ensures CountNotRequested(g[..i]) <= CountNotRequested(g[..j])
    decreases j - i
  {
    if i < j {
      CountNotRequestedMonotone(g, i, j - 1);
      assert g[..j][..j - 1] == g[..j - 1];
    }
  }

  /** Every page up to a started one was started too, if it was not requested. */
  lemma AdmitStartsLowestFirst(g: seq<PageState>, budget: nat, i: nat, j: nat)
    requires i < j < |g| && g[i] == NotRequested
    requires g[j] == NotRequested && Admit(g, budget)[j] == Loading
    ensures Admit(g, budget)[i] == Loading
  {
    CountNotRequestedMonotone(g, i + 1, j);
    assert g[..i + 1][..i] == g[..i];
  }

  /** A pass over a prefix is the prefix of the pass. */
  lemma AdmitPrefix(g: seq<PageState>, budget: nat, n: nat)
    requires n <= |g|
    ensures Admit(g[..n], budget) == Admit(g, budget)[..n]
  {
    forall j | 0 <= j < n ensures Admit(g[..n], budget)[j] == Admit(g, budget)[j] {
      assert g[..n][..j] == g[..j];
    }
  }

  /** A pass starts `Min(not requested, budget)` pages. */
  lemma {:induction false} AdmitCountsLoading(g: seq<PageState>, budget: nat)
    ensures CountLoading(Admit(g, budget)) == CountLoading(g) + Min(CountNotRequested(g), budget)
  {
    if g != [] {
      var n := |g| - 1;
      var r := Admit(g, budget);
      AdmitCountsLoading(g[..n], budget);
      AdmitPrefix(g, budget, n);
      assert r[..n] == Admit(g[..n], budget);
    }
  }

  /** Each pass of the scheduler as written starts up to two pages, however many are loading. */
  lemma AsWrittenStartsUpToTwo(g: seq<PageState>)
    requires g != []
    ensures CountLoading(Admit(g, Budget(InitialLoadingCount(g, AsWritten)))) ==
            CountLoading(g) + Min(CountNotRequested(g), 2)
  {
    AdmitCountsLoading(g, 2);
  }

  /** At most `MaxLoading` pages loading (or no page array yet). */
  predicate WithinLoadingBound(s: LoaderState)
  {
    s.graphics.None? || CountLoading(s.graphics.value) <= MaxLoading
  }

  function Indicator(b: bool): int
  {
    if b then 1 else 0
  }

  /** Overwriting one slot changes each count by what left and what arrived. */
  lemma {:induction false} CountsAfterUpdate(g: seq<PageState>, p: nat, x: PageState)
    requires p < |g|
    ensures CountLoading(g[p := x]) == CountLoading(g) - Indicator(g[p] == Loading) + Indicator(x == Loading)
    ensures CountNotRequested(g[p := x]) ==
            CountNotRequested(g) - Indicator(g[p] == NotRequested) + Indicator(x == NotRequested)
  {
    var n := |g| - 1;
    if p < n {
      CountsAfterUpdate(g[..n], p, x);
      assert g[p := x][..n] == g[..n][p := x];
    } else {
      assert g[p := x][..p] == g[..p];
    }
  }

  lemma {:induction false} NoneLoading(g: seq<PageState>)
    requires forall i :: 0 <= i < |g| ==> g[i] == NotRequested
    ensures CountLoading(g) == 0 && CountNotRequested(g) == |g|
  {
    if g != [] {
      NoneLoading(g[..|g| - 1]);
    }
  }

  /** With the corrected scheduler no transition takes the loader past the bound. */
  lemma CorrectedStepKeepsBound(s: LoaderState, e: LoaderEvent)
    requires Admissible(s, e) && WithinLoadingBound(s)
    ensures WithinLoadingBound(Step(s, e, Corrected))
  {
    match e
    case MetaParsed(t, m) =>
      if t == s.loadToken && PageSlots(Normalise(m)).Some? {
        NoneLoading(PageSlots(Normalise(m)).value);
      }
    case PageLoaded(t, p, svg) =>
      if t == s.loadToken {
        CountsAfterUpdate(s.graphics.value, p, Loaded(svg));
      }
    case RetryFired(t, p) =>
      if t == s.loadToken {
        CountsAfterUpdate(s.graphics.value, p, NotRequested);
      }
    case SchedulerRun =>
      if s.meta.Some? && s.graphics.Some? {
        var g := s.graphics.value;
        AdmitCountsLoading(g, Budget(CountLoading(g)));
      }
    case _ =>
  }

  /** With the corrected scheduler, every reachable state keeps at most three pages loading. */
  lemma {:induction false} CorrectedBoundOnEveryTrace(s: LoaderState, trace: seq<LoaderEvent>)
    requires WithinLoadingBound(s) && AdmissibleTrace(s, trace, Corrected)
    ensures WithinLoadingBound(Run(s, trace, Corrected))
    decreases |trace|
  {
    if trace != [] {
      CorrectedStepKeepsBound(s, trace[0]);
      CorrectedBoundOnEveryTrace(Step(s, trace[0], Corrected), trace[1..]);
    }
  }

  /** A pass moves pages from not requested to loading and nothing else. */
  lemma {:induction false} CountsPartition(g: seq<PageState>, budget: nat)
    ensures CountLoading(Admit(g, budget)) + CountNotRequested(Admit(g, budget)) ==
            CountLoading(g) + CountNotRequested(g)
  {
    if g != [] {
      var n := |g| - 1;
      CountsPartition(g[..n], budget);
      AdmitPrefix(g, budget, n);
    }
  }

  /** The counts after one pass of the scheduler as written on a loaded, non-empty score. */
  lemma AsWrittenRunCounts(s: LoaderState)
    requires s.meta.Some? && s.graphics.Some? && s.graphics.value != []
    ensures var g, g' := s.graphics.value, Step(s, SchedulerRun, AsWritten).graphics;
            && g'.Some? && |g'.value| == |g|
            && CountLoading(g'.value) == CountLoading(g) + Min(CountNotRequested(g), 2)
            && CountNotRequested(g'.value) == CountNotRequested(g) - Min(CountNotRequested(g), 2)
            && forall j :: 0 <= j < |g| && g[j] != NotRequested ==> g'.value[j] == g[j]
  {
    AdmitCountsLoading(s.graphics.value, 2);
    CountsPartition(s.graphics.value, 2);
  }

  lemma RunCons(s: LoaderState, e: LoaderEvent, rest: seq<LoaderEvent>, v: Variant)
    requires Admissible(s, e) && AdmissibleTrace(Step(s, e, v), rest, v)
    ensures AdmissibleTrace(s, [e] + rest, v)
    ensures Run(s, [e] + rest, v) == Run(Step(s, e, v), rest, v)
  {
    assert ([e] + rest)[0] == e && ([e] + rest)[1..] == rest;
  }

  /** A page arriving for the current token ends one load. */
  lemma CompletionCounts(s: LoaderState, p: nat, svg: string)
    requires s.loadToken > 0 && s.graphics.Some? && p < |s.graphics.value| && s.graphics.value[p] == Loading
    ensures var g, s' := s.graphics.value, Step(s, PageLoaded(s.loadToken, p, svg), AsWritten);
            && s'.meta == s.meta && s'.loadToken == s.loadToken
            && s'.graphics.Some? && |s'.graphics.value| == |g|
            && CountLoading(s'.graphics.value) == CountLoading(g) - 1
            && CountNotRequested(s'.graphics.value) == CountNotRequested(g)
            && forall j :: 0 <= j < |g| && j != p ==> s'.graphics.value[j] == g[j]
  {
    CountsAfterUpdate(s.graphics.value, p, Loaded(svg));
  }

  /**
   * The states of the counterexample after the metadata: on six pages not yet
   * requested, run, page 0 arrives, run, page 1 arrives, run; four pages end
   * up loading.
   */
  lemma AsWrittenSixPagesCounts(s2: LoaderState, svg: string)
    requires s2.loadToken > 0 && s2.meta.Some? && s2.graphics.Some? && |s2.graphics.value| == 6
    requires forall j :: 0 <= j < 6 ==> s2.graphics.value[j] == NotRequested
    ensures var t := s2.loadToken;
            var s3 := Step(s2, SchedulerRun, AsWritten);
            && Admissible(s3, PageLoaded(t, 0, svg))
            && var s5 := Step(Step(s3, PageLoaded(t, 0, svg), AsWritten), SchedulerRun, AsWritten);
            && Admissible(s5, PageLoaded(t, 1, svg))
            && var s7 := Step(Step(s5, PageLoaded(t, 1, svg), AsWritten), SchedulerRun, AsWritten);
            && s7.graphics.Some? && CountLoading(s7.graphics.value) == 4
  {
    var t := s2.loadToken;
    var g0 := s2.graphics.value;
    NoneLoading(g0);
    var s3 := Step(s2, SchedulerRun, AsWritten);
    var g3 := s3.graphics.value;
    AsWrittenRunCounts(s2);
    assert g0[..0] == [] && g0[..1] == [g0[0]];
    assert g3[0] == Loading && g3[1] == Loading;
    var s4 := Step(s3, PageLoaded(t, 0, svg), AsWritten);
    CompletionCounts(s3, 0, svg);
    var s5 := Step(s4, SchedulerRun, AsWritten);
    AsWrittenRunCounts(s4);
    var s6 := Step(s5, PageLoaded(t, 1, svg), AsWritten);
    CompletionCounts(s5, 1, svg);
    var s7 := Step(s6, SchedulerRun, AsWritten);
    AsWrittenRunCounts(s6);
  }

  /** The counterexample after the metadata, as an admissible trace. */
  lemma {:induction false} AsWrittenSixPagesReachFour(s2: LoaderState, svg: string)
    requires s2.loadToken > 0 && s2.meta.Some? && s2.graphics.Some? && |s2.graphics.value| == 6
    requires forall j :: 0 <= j < 6 ==> s2.graphics.value[j] == NotRequested
    ensures var trace := [SchedulerRun, PageLoaded(s2.loadToken, 0, svg), SchedulerRun,
                          PageLoaded(s2.loadToken, 1, svg), SchedulerRun];
            && AdmissibleTrace(s2, trace, AsWritten)
            && Run(s2, trace, AsWritten).graphics.Some?
            && CountLoading(Run(s2, trace, AsWritten).graphics.value) == 4
  {
    var t := s2.loadToken;
    var e3, e4, e6 := SchedulerRun, PageLoaded(t, 0, svg), PageLoaded(t, 1, svg);
    AsWrittenSixPagesCounts(s2, svg);
    var s3 := Step(s2, e3, AsWritten);
    var s4 := Step(s3, e4, AsWritten);
    var s5 := Step(s4, e3, AsWritten);
    var s6 := Step(s5, e6, AsWritten);
    var s7 := Step(s6, e3, AsWritten);
    var tail: seq<LoaderEvent> := [];
    assert AdmissibleTrace(s7, tail, AsWritten) && Run(s7, tail, AsWritten) == s7;
    RunCons(s6, e3, tail, AsWritten);
    tail := [e3] + tail;
    RunCons(s5, e6, tail, AsWritten);
    tail := [e6] + tail;
    RunCons(s4, e3, tail, AsWritten);
    tail := [e3] + tail;
    RunCons(s3, e4, tail, AsWritten);
    tail := [e4] + tail;
    RunCons(s2, e3, tail, AsWritten);
    tail := [e3] + tail;
    assert AdmissibleTrace(s2, tail, AsWritten) && Run(s2, tail, AsWritten) == s7;
    assert tail == [e3, e4, e3, e6, e3];
  }

  /**
   * As written, six pages reach four loads in flight: the first run starts
   * pages 0 and 1, and each completion lets the next run start two more.
   */
  lemma AsWrittenExceedsLoadingBound()
    ensures var trace := [SrcChanged("score"), MetaParsed(1, MetaJson(Some(6), None)), SchedulerRun,
                          PageLoaded(1, 0, ""), SchedulerRun, PageLoaded(1, 1, ""), SchedulerRun];
            && AdmissibleTrace(Initial, trace, AsWritten)
            && Run(Initial, trace, AsWritten).graphics.Some?
            && CountLoading(Run(Initial, trace, AsWritten).graphics.value) == 4
  {
    var e1, e2 := SrcChanged("score"), MetaParsed(1, MetaJson(Some(6), None));
    var rest := [SchedulerRun, PageLoaded(1, 0, ""), SchedulerRun, PageLoaded(1, 1, ""), SchedulerRun];
    var s1 := Step(Initial, e1, AsWritten);
    var s2 := Step(s1, e2, AsWritten);
    AsWrittenSixPagesReachFour(s2, "");
    RunCons(s1, e2, rest, AsWritten);
    RunCons(Initial, e1, [e2] + rest, AsWritten);
    assert [e1] + ([e2] + rest) ==
           [SrcChanged("score"), MetaParsed(1, MetaJson(Some(6), None)), SchedulerRun,
            PageLoaded(1, 0, ""), SchedulerRun, PageLoaded(1, 1, ""), SchedulerRun];
  }
}
