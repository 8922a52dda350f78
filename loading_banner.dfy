/**
 * The site's loading banner: the shared counter, then a three-stage marker. The tick that
 * finds the counter full schedules the reveal; the reveal schedules completion; completion
 * hides the overlay and schedules `onComplete`.
 */
module LoadingBanner {
  import opened Progress

  datatype Stage = Loading | Reveal | Complete

  /** The position of a stage in loading, reveal, complete; no timer moves it backwards. */
  function StageRank(s: Stage): (r: nat)
    ensures r <= 2
    ensures s == Loading <==> r == 0
    ensures s == Complete <==> r == 2
  {
    match s
    case Loading => 0
    case Reveal => 1
    case Complete => 2
  }

  /** The overlay is on screen until the stage is complete. */
  predicate OverlayVisible(stage: Stage) {
    stage != Complete
  }

  const StatusThresholds: seq<int> := [20, 40, 60, 80]

  const StatusTexts: seq<string> :=
    ["\U{25B8} Neural networks loaded...", "\U{25B8} Cognitive systems online...",
     "\U{25B8} Holographic interface calibrated...", "\U{25B8} Reality augmentation ready..."]

  /** Status line `k` shows while loading, once the counter has passed its threshold. */
  predicate StatusShown(stage: Stage, progress: int, k: nat)
    requires k < 4
  {
    stage == Loading && progress > StatusThresholds[k]
  }

  /** The status lines from the `k`-th on that are shown, in order. */
  function StatusLinesFrom(stage: Stage, progress: int, k: nat): (r: seq<string>)
    requires k <= 4
    ensures |r| <= 4 - k
    decreases 4 - k
  {
    if k == 4 then []
    else (if StatusShown(stage, progress, k) then [StatusTexts[k]] else []) + StatusLinesFrom(stage, progress, k + 1)
  }

  /** The status lines on screen. */
  function StatusLines(stage: Stage, progress: int): seq<string> {
    StatusLinesFrom(stage, progress, 0)
  }

  /**
   * Because the thresholds rise, the shown lines are always the first few, one for each
   * threshold the counter has passed; nothing shows outside the loading stage.
   */
  lemma {:induction false} StatusLinesFromPrefix(stage: Stage, progress: int, k: nat)
    requires k <= 4
    ensures forall j :: k <= j < 4 && StatusShown(stage, progress, j) ==> StatusTexts[j] in StatusLinesFrom(stage, progress, k)
    ensures StatusLinesFrom(stage, progress, k) == StatusTexts[k..k + |StatusLinesFrom(stage, progress, k)|]
    ensures forall j :: k <= j < 4 ==> (j < k + |StatusLinesFrom(stage, progress, k)| <==> StatusShown(stage, progress, j))
    decreases 4 - k
  {
    if k < 4 {
      StatusLinesFromPrefix(stage, progress, k + 1);
      var rest := StatusLinesFrom(stage, progress, k + 1);
      if StatusShown(stage, progress, k) {
        assert StatusTexts[k..k + 1 + |rest|] == [StatusTexts[k]] + StatusTexts[k + 1..k + 1 + |rest|];
      } else {
        assert k + 1 == 4 || !StatusShown(stage, progress, k + 1);
        assert rest == [];
      }
    }
  }

  /** The status lines on screen are the first `n` of the four, where `n` counts the thresholds passed while loading. */
  lemma StatusLinesArePrefix(stage: Stage, progress: int)
    ensures StatusLines(stage, progress) == StatusTexts[..|StatusLines(stage, progress)|]
    ensures forall k :: 0 <= k < 4 ==> (k < |StatusLines(stage, progress)| <==> StatusShown(stage, progress, k))
    ensures stage != Loading ==> StatusLines(stage, progress) == []
  {
    StatusLinesFromPrefix(stage, progress, 0);
  }

  class LoadingBannerState {
    var progress: int
    var ticks: nat
    var intervalRunning: bool
    var stage: Stage
    /** The 300 ms timer that moves the stage to reveal. */
    var revealPending: bool
    /** The 1500 ms timer that moves the stage to complete. */
    var completePending: bool
    /** The 800 ms timer that calls `onComplete`. */
    var onCompletePending: bool
    var completions: nat

    /**
     * The counter follows the tick rule; the reveal is pending exactly while the interval
     * has stopped and the stage is still loading; each later stage has exactly its timer
     * pending; `onComplete` is called at most once, after completion.
     */
    predicate Valid()
      reads this
    {
      progress == ProgressAfter(ticks) && ticks <= 51
      && (intervalRunning <==> ticks <= 50)
      && (revealPending <==> stage == Loading && !intervalRunning)
      && (completePending <==> stage == Reveal)
      && (stage != Loading ==> !intervalRunning)
      && (stage != Complete ==> !onCompletePending && completions == 0)
      && (stage == Complete ==> (onCompletePending <==> completions == 0) && completions <= 1)
    }

    constructor()
      ensures progress == 0 && ticks == 0 && intervalRunning && stage == Loading
      ensures !revealPending && !completePending && !onCompletePending && completions == 0
      ensures Valid()
    {
      progress := 0;
      ticks := 0;
      intervalRunning := true;
      stage := Loading;
      revealPending := false;
      completePending := false;
      onCompletePending := false;
      completions := 0;
    }

    /** One interval tick; the tick that finds the counter full stops the interval and schedules the reveal. */
    method Tick()
      requires Valid() && intervalRunning
      modifies this
      ensures progress == NextProgress(old(progress)) && ticks == old(ticks) + 1
      ensures intervalRunning <==> old(progress) < 100
      ensures revealPending <==> old(progress) >= 100
      ensures stage == old(stage) == Loading
      ensures completePending == old(completePending) && onCompletePending == old(onCompletePending)
      ensures completions == old(completions)
      ensures StageRank(old(stage)) <= StageRank(stage)
      ensures Valid()
    {
      FullExactlyFromTickFifty(ticks);
      if progress >= 100 {
        intervalRunning := false;
        revealPending := true;
        progress := 100;
      } else {
        progress := progress + 2;
      }
      ticks := ticks + 1;
    }

    /** The reveal timer fires; the effect watching the stage schedules completion. */
    method RevealFires()
      requires Valid() && revealPending
      modifies this
      ensures old(stage) == Loading && stage == Reveal
      ensures !revealPending && completePending
      ensures progress == old(progress) && ticks == old(ticks) && intervalRunning == old(intervalRunning)
      ensures onCompletePending == old(onCompletePending) && completions == old(completions)
      ensures StageRank(old(stage)) <= StageRank(stage)
      ensures Valid()
    {
      stage := Reveal;
      revealPending := false;
      completePending := true;
    }

    /** The completion timer fires: the overlay goes and `onComplete` is scheduled. */
    method CompleteFires()
      requires Valid() && completePending
      modifies this
      ensures old(stage) == Reveal && stage == Complete
      ensures !completePending && onCompletePending
      ensures progress == old(progress) && ticks == old(ticks) && intervalRunning == old(intervalRunning)
      ensures revealPending == old(revealPending) && completions == old(completions)
      ensures StageRank(old(stage)) <= StageRank(stage)
      ensures Valid()
    {
      stage := Complete;
      completePending := false;
      onCompletePending := true;
    }

    /** The last timer calls `onComplete`. */
    method OnCompleteFires()
      requires Valid() && onCompletePending
      modifies this
      ensures stage == old(stage) == Complete
      ensures !onCompletePending && completions == old(completions) + 1 && completions == 1
      ensures progress == old(progress) && ticks == old(ticks) && intervalRunning == old(intervalRunning)
      ensures revealPending == old(revealPending) && completePending == old(completePending)
      ensures StageRank(old(stage)) <= StageRank(stage)
      ensures Valid()
    {
      onCompletePending := false;
      completions := completions + 1;
    }
  }

  /** Once the stage has left loading, the counter is full: the reveal comes only after a tick saw 100. */
  lemma StagesFollowFullCounter(banner: LoadingBannerState)
    requires banner.Valid()
    requires banner.stage != Loading || banner.revealPending
    ensures banner.progress == 100 && banner.ticks == 51
    ensures banner.completions > 0 ==> banner.stage == Complete && !OverlayVisible(banner.stage)
  {
    ProgressAfterTicks(banner.ticks);
  }
}
