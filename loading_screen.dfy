/**
 * The studio's loading screen: a counter driven by an interval, and a completion callback
 * scheduled half a second after the tick that finds the counter full.
 */
module LoadingScreen {
  import opened Progress

  class LoadingScreenState {
    var progress: int
    /** Ticks the interval has delivered. */
    var ticks: nat
    var intervalRunning: bool
    /** The half-second timer that will call `onComplete` is pending. */
    var completionPending: bool
    /** How often `onComplete` has been called. */
    var completions: nat

    /**
     * The counter is the tick rule applied `ticks` times; the interval runs through the
     * fifty-first tick; completion is scheduled by that tick and called at most once.
     */
    predicate Valid()
      reads this
    {
      progress == ProgressAfter(ticks) && ticks <= 51
      && (intervalRunning <==> ticks <= 50)
      && (!intervalRunning <==> completionPending || completions == 1)
      && !(completionPending && completions == 1)
      && completions <= 1
    }

    constructor()
      ensures progress == 0 && ticks == 0 && intervalRunning && !completionPending && completions == 0
      ensures Valid()
    {
      progress := 0;
      ticks := 0;
      intervalRunning := true;
      completionPending := false;
      completions := 0;
    }

    /** One interval tick: the updater returns the next value; a full counter stops the interval and schedules completion. */
    method Tick()
      requires Valid() && intervalRunning
      modifies this
      ensures progress == NextProgress(old(progress)) && ticks == old(ticks) + 1
      ensures intervalRunning <==> old(progress) < 100
      ensures completionPending <==> old(progress) >= 100
      ensures completions == old(completions)
      ensures Valid()
    {
      FullExactlyFromTickFifty(ticks);
      if progress >= 100 {
        intervalRunning := false;
        completionPending := true;
        progress := 100;
      } else {
        progress := progress + 2;
      }
      ticks := ticks + 1;
    }

    /** The completion timer fires and calls `onComplete`. */
    method CompletionFires()
      requires Valid() && completionPending
      modifies this
      ensures !completionPending && completions == old(completions) + 1 && completions == 1
      ensures progress == old(progress) && ticks == old(ticks) && intervalRunning == old(intervalRunning)
      ensures Valid()
    {
      completionPending := false;
      completions := completions + 1;
    }
  }

  /** Completion is only ever scheduled with the counter full, after fifty-one ticks. */
  lemma CompletionOnlyWhenFull(screen: LoadingScreenState)
    requires screen.Valid()
    requires screen.completionPending || screen.completions > 0
    ensures screen.progress == 100 && screen.ticks == 51
  {
    ProgressAfterTicks(screen.ticks);
  }
}
