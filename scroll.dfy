/**
 * `scroll` (scrape.py:28-51): keeps scrolling an infinitely loading page to
 * its bottom until the page height has stayed the same for longer than
 * `timeout`.
 *
 * The browser and the clock are replaced by a finite sequence of polls: the
 * i-th pass of the `while True` loop reads the height `polls[i].height`
 * (scrape.py:36) and, in whichever branch it takes, the clock value
 * `polls[i].now` (scrape.py:38 or 44). `t0` is the clock value read before
 * the loop (scrape.py:33). The source loop has no iteration cap, so a run
 * either returns at some poll or has not returned within the given polls.
 */
module Scroll {

  /** One pass of the loop: the height just read and the time read with it. */
  datatype Poll = Poll(height: nat, now: int)

  /** The loop's locals `last_height` and `last_scroll_time`. */
  datatype State = State(lastHeight: int, lastScrollTime: int)

  /** What one pass does: scroll to the bottom, sleep and poll again, or return. */
  datatype Action = ScrollToBottom | Wait | Done

  /** Where a run ended: at the poll with this index, or not within the polls. */
  datatype Outcome = StoppedAt(index: nat) | NotStopped

  /** The initial `last_height` (scrape.py:32), below every real height. */
  const Sentinel: int := -1

  function Start(t0: int): State {
    State(Sentinel, t0)
  }

  /**
   * One pass of the loop body (scrape.py:36-46): a changed height is
   * recorded with its time and scrolled to; an unchanged one leaves the state
   * alone and returns once more than `timeout` has passed since the last
   * change.
   */
  function Step(s: State, p: Poll, timeout: int): (r: (State, Action))
    ensures r.1 == ScrollToBottom <==> p.height != s.lastHeight
    ensures r.1 == ScrollToBottom ==> r.0 == State(p.height, p.now)
    ensures r.1 != ScrollToBottom ==> r.0 == s
    ensures r.1 == Done <==> p.height == s.lastHeight && p.now - s.lastScrollTime > timeout
  {
    if p.height == s.lastHeight then
      if p.now - s.lastScrollTime > timeout then (s, Done) else (s, Wait)
    else
      (State(p.height, p.now), ScrollToBottom)
  }

  /** The state at the start of pass `i`, the earlier passes not having returned. */
  function StateBefore(polls: seq<Poll>, t0: int, timeout: int, i: nat): State
    requires i <= |polls|
  {
    if i == 0 then Start(t0)
    else Step(StateBefore(polls, t0, timeout, i - 1), polls[i - 1], timeout).0
  }

  /** What pass `i` does. */
  function ActionAt(polls: seq<Poll>, t0: int, timeout: int, i: nat): Action
    requires i < |polls|
  {
    Step(StateBefore(polls, t0, timeout, i), polls[i], timeout).1
  }

  /** The first pass from `i` on that returns. */
  function FirstDoneFrom(polls: seq<Poll>, t0: int, timeout: int, i: nat): Outcome
    requires i <= |polls|
    decreases |polls| - i
  {
    if i == |polls| then NotStopped
    else if ActionAt(polls, t0, timeout, i) == Done then StoppedAt(i)
    else FirstDoneFrom(polls, t0, timeout, i + 1)
  }

  /** The whole run of the loop over `polls`: it stops at the first settled
      poll, or not at all when no poll is settled. */
  function Run(polls: seq<Poll>, t0: int, timeout: int): (r: Outcome)
    ensures r.StoppedAt? ==>
      && r.index < |polls| && Settled(polls, timeout, r.index)
      && forall j :: 0 <= j < r.index ==> !Settled(polls, timeout, j)
    ensures r.NotStopped? ==> forall j :: 0 <= j < |polls| ==> !Settled(polls, timeout, j)
  {
    FirstDoneFromSpec(polls, t0, timeout, 0);
    FirstDoneFrom(polls, t0, timeout, 0)
  }

  // ---------------------------------------------------------------------
  // The same behaviour stated on the observations alone

  /** Poll `k` reads a height other than the previous poll's. The first poll
      always counts, because every real height differs from the sentinel. */
  predicate Changed(polls: seq<Poll>, k: nat)
    requires k < |polls|
  {
    k == 0 || polls[k].height != polls[k - 1].height
  }

  /** The most recent poll at or before `k` that saw the height change. */
  function LastChange(polls: seq<Poll>, k: nat): (c: nat)
    requires k < |polls|
    ensures c <= k && Changed(polls, c)
    ensures forall j :: c < j <= k ==> !Changed(polls, j)
  {
    if Changed(polls, k) then k else LastChange(polls, k - 1)
  }

  /** Poll `i` sees the height it saw before, and more than `timeout` has
      passed since the poll that last saw it change. */
  predicate Settled(polls: seq<Poll>, timeout: int, i: nat)
    requires i < |polls|
  {
    !Changed(polls, i) && polls[i].now - polls[LastChange(polls, i)].now > timeout
  }

  /** After any pass, `last_height` is the height that pass read and
      `last_scroll_time` the time of the last change. */
  lemma {:induction false} StateBeforeTracksPolls(polls: seq<Poll>, t0: int, timeout: int, i: nat)
    requires 1 <= i <= |polls|
    ensures StateBefore(polls, t0, timeout, i)
         == State(polls[i - 1].height, polls[LastChange(polls, i - 1)].now)
  {
    if i > 1 {
      StateBeforeTracksPolls(polls, t0, timeout, i - 1);
    }
  }

  /** Each pass scrolls exactly when the height changed, returns exactly when
      the height has settled, and waits otherwise. */
  lemma ActionAtSpec(polls: seq<Poll>, t0: int, timeout: int, i: nat)
    requires i < |polls|
    ensures ActionAt(polls, t0, timeout, i)
         == if Changed(polls, i) then ScrollToBottom
            else if Settled(polls, timeout, i) then Done
            else Wait
  {
    if i > 0 {
      StateBeforeTracksPolls(polls, t0, timeout, i);
    }
  }

  /** The run returns at the first settled poll, and only there. */
  lemma {:induction false} FirstDoneFromSpec(polls: seq<Poll>, t0: int, timeout: int, i: nat)
    requires i <= |polls|
    ensures var r := FirstDoneFrom(polls, t0, timeout, i);
      && (r.StoppedAt? ==>
            i <= r.index < |polls| && Settled(polls, timeout, r.index)
            && forall j :: i <= j < r.index ==> !Settled(polls, timeout, j))
      && (r.NotStopped? ==> forall j :: i <= j < |polls| ==> !Settled(polls, timeout, j))
    decreases |polls| - i
  {
    if i < |polls| {
      ActionAtSpec(polls, t0, timeout, i);
      FirstDoneFromSpec(polls, t0, timeout, i + 1);
    }
  }

  /** `scroll` returns at poll `i` exactly when poll `i` is the first settled
      poll; it does not return within the polls exactly when none is. */
  lemma RunSpec(polls: seq<Poll>, t0: int, timeout: int)
    ensures forall i: nat :: Run(polls, t0, timeout) == StoppedAt(i) <==>
      i < |polls| && Settled(polls, timeout, i) && forall j :: 0 <= j < i ==> !Settled(polls, timeout, j)
    ensures Run(polls, t0, timeout) == NotStopped <==> forall j :: 0 <= j < |polls| ==> !Settled(polls, timeout, j)
  {
    FirstDoneFromSpec(polls, t0, timeout, 0);
  }

  /** `scroll` never returns on a poll whose height changed, nor before
      `timeout` has strictly elapsed since the last change. */
  lemma StopsOnlyWhenSettled(polls: seq<Poll>, t0: int, timeout: int)
    requires Run(polls, t0, timeout).StoppedAt?
    ensures var i := Run(polls, t0, timeout).index;
      && 1 <= i < |polls|
      && polls[i].height == polls[i - 1].height
      && polls[i].now - polls[LastChange(polls, i)].now > timeout
  {
    FirstDoneFromSpec(polls, t0, timeout, 0);
  }

  /** Because of the sentinel, the first poll always scrolls. */
  lemma FirstPollScrolls(polls: seq<Poll>, t0: int, timeout: int)
    requires |polls| > 0
    ensures ActionAt(polls, t0, timeout, 0) == ScrollToBottom
    ensures StateBefore(polls, t0, timeout, 1) == State(polls[0].height, polls[0].now)
  {
  }

  /** The start time is overwritten by the first poll, so it never decides
      where a run stops. */
  lemma RunIgnoresStartTime(polls: seq<Poll>, t0: int, t1: int, timeout: int)
    ensures Run(polls, t0, timeout) == Run(polls, t1, timeout)
  {
    RunSpec(polls, t0, timeout);
    RunSpec(polls, t1, timeout);
  }

  /** Heights 10, 10, 20, 20, 20, 20 one second apart with a timeout of two
      seconds: the run returns at the sixth poll, three seconds after the
      height last changed. */
  lemma ExampleRun()
    ensures Run([Poll(10, 0), Poll(10, 1), Poll(20, 2), Poll(20, 3), Poll(20, 4), Poll(20, 5)], 0, 2)
         == StoppedAt(5)
  {
    var polls := [Poll(10, 0), Poll(10, 1), Poll(20, 2), Poll(20, 3), Poll(20, 4), Poll(20, 5)];
    RunSpec(polls, 0, 2);
    assert LastChange(polls, 5) == 2;
    assert LastChange(polls, 4) == 2;
    assert LastChange(polls, 3) == 2;
    assert LastChange(polls, 1) == 0;
    assert forall j :: 0 <= j < 5 ==> !Settled(polls, 2, j);
  }

  // ---------------------------------------------------------------------
  // The loop itself

  /**
   * The `while True` loop of scrape.py:32-51 over the given polls. `actions`
   * is what each pass did, up to and including the one that returned.
   */
  method Scroll(polls: seq<Poll>, t0: int, timeout: int) returns (outcome: Outcome, actions: seq<Action>)
    ensures outcome == Run(polls, t0, timeout)
    ensures outcome.StoppedAt? ==>
      && outcome.index < |polls| && Settled(polls, timeout, outcome.index)
      && forall j :: 0 <= j < outcome.index ==> !Settled(polls, timeout, j)
    ensures outcome.NotStopped? ==> forall j :: 0 <= j < |polls| ==> !Settled(polls, timeout, j)
    ensures |actions| == if outcome.StoppedAt? then outcome.index + 1 else |polls|
    ensures forall k :: 0 <= k < |actions| ==>
      (actions[k] == ScrollToBottom <==> Changed(polls, k)) &&
      (actions[k] == Done <==> outcome == StoppedAt(k))
  {
    var lastHeight := Sentinel;
    var lastScrollTime := t0;
    actions := [];
    var i := 0;
    while i < |polls|
      invariant i <= |polls|
      invariant State(lastHeight, lastScrollTime) == StateBefore(polls, t0, timeout, i)
      invariant Run(polls, t0, timeout) == FirstDoneFrom(polls, t0, timeout, i)
      invariant |actions| == i
      invariant forall k :: 0 <= k < i ==> actions[k] == ActionAt(polls, t0, timeout, k) && actions[k] != Done
    {
      var newHeight := polls[i].height;
      if newHeight == lastHeight {
        if polls[i].now - lastScrollTime > timeout {
          actions := actions + [Done];
          outcome := StoppedAt(i);
          TraceFacts(polls, t0, timeout, actions);
          RunSpec(polls, t0, timeout);
          return;
        }
        actions := actions + [Wait];
      } else {
        lastHeight := newHeight;
        lastScrollTime := polls[i].now;
        actions := actions + [ScrollToBottom];
      }
      i := i + 1;
    }
    outcome := NotStopped;
    TraceFacts(polls, t0, timeout, actions);
    RunSpec(polls, t0, timeout);
  }

  /** What a trace of passes says about the polls it was made from. */
  lemma TraceFacts(polls: seq<Poll>, t0: int, timeout: int, actions: seq<Action>)
    requires |actions| <= |polls|
    requires forall k :: 0 <= k < |actions| ==> actions[k] == ActionAt(polls, t0, timeout, k)
    ensures forall k :: 0 <= k < |actions| ==> (actions[k] == ScrollToBottom <==> Changed(polls, k))
    ensures forall k :: 0 <= k < |actions| ==> (actions[k] == Done <==> Settled(polls, timeout, k))
  {
    forall k | 0 <= k < |actions|
      ensures (actions[k] == ScrollToBottom <==> Changed(polls, k))
      ensures (actions[k] == Done <==> Settled(polls, timeout, k))
    {
      ActionAtSpec(polls, t0, timeout, k);
    }
  }
}
