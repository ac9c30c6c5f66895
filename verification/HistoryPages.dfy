/**
 Sticky-queue pages. `make_incremental` drops the front of a validated history; the pages it leaves,
 laid end to end behind the first history, are the whole history again.
 */
module HistoryPages {
  import opened Common
  import opened HistoryEvents
  import opened HistoryInfo

  /** Position of the latest task-completed event among the first `k` events. */
  function LastCompleted(es: seq<Event>, k: nat): (r: Option<nat>)
    requires k <= |es|
    ensures r.Some? ==> r.value < k && es[r.value].eventType.WorkflowTaskCompleted?
    ensures forall j :: (if r.Some? then r.value + 1 else 0) <= j < k ==> !es[j].eventType.WorkflowTaskCompleted?
  {
    if k == 0 then None
    else if es[k - 1].eventType.WorkflowTaskCompleted? then Some(k - 1)
    else LastCompleted(es, k - 1)
  }

  /** The events left by `make_incremental`; `None` is its panic on a history without a completed task. */
  function Page(es: seq<Event>): Option<seq<Event>> {
    var at := LastCompleted(es, |es|);
    if at.Some? then Some(es[at.value..]) else None
  }

  /** A validated history as the object whose events `make_incremental` drains in place. */
  class ValidatedHistory {
    var info: Info

    constructor (info: Info)
      ensures this.info == info
    {
      this.info := info;
    }

    /** `HistoryInfo::make_incremental`; `ok` is false where the source panics. */
    method MakeIncremental() returns (ok: bool)
      modifies this
      ensures ok <==> Page(old(info.events)).Some?
      ensures ok ==> info == old(info).(events := Page(old(info.events)).value)
      ensures !ok ==> info == old(info)
    {
      var k := |info.events|;
      while 0 < k && !info.events[k - 1].eventType.WorkflowTaskCompleted?
        invariant 0 <= k <= |info.events|
        invariant LastCompleted(info.events, k) == LastCompleted(info.events, |info.events|)
      {
        k := k - 1;
      }
      ok := 0 < k;
      if ok { info := info.(events := info.events[k - 1..]); }
    }
  }

  /** Every completed event directly follows its started event, as the server writes them. */
  ghost predicate CompletionsFollowStarts(es: seq<Event>) {
    forall j :: 0 <= j < |es| && es[j].eventType.WorkflowTaskCompleted? ==>
                  0 < j && es[j - 1].eventType.WorkflowTaskStarted?
  }

  /** No completed event lies behind position `after` up to and including position `upTo`. */
  ghost predicate NoCompletionBetween(es: seq<Event>, after: nat, upTo: nat)
    requires upTo < |es|
  {
    forall j :: after < j <= upTo ==> !es[j].eventType.WorkflowTaskCompleted?
  }

  /** The page itself: from the completion behind event `h` up to event `i`. */
  lemma PageIsSlice(es: seq<Event>, h: nat, i: nat)
    requires h < i < |es| && es[h + 1].eventType.WorkflowTaskCompleted? && NoCompletionBetween(es, h + 1, i)
    ensures Page(es[..i + 1]) == Some(es[h + 1..i + 1])
  {
    var later := es[..i + 1];
    assert later[h + 1].eventType.WorkflowTaskCompleted?;
    assert LastCompleted(later, |later|) == Some(h + 1);
    assert later[h + 1..] == es[h + 1..i + 1];
  }

  /** A page never starts before the completion behind event `h`, and later than that exactly when one is stray. */
  lemma PageLength(es: seq<Event>, h: nat, i: nat)
    requires h < i < |es| && es[h + 1].eventType.WorkflowTaskCompleted?
    ensures Page(es[..i + 1]).Some? && |Page(es[..i + 1]).value| <= i - h
    ensures |Page(es[..i + 1]).value| == i - h <==> NoCompletionBetween(es, h + 1, i)
  {
    var later := es[..i + 1];
    assert later[h + 1].eventType.WorkflowTaskCompleted?;
    var at := LastCompleted(later, |later|);
    assert h + 1 <= at.value;
    if h + 1 < at.value {
      assert es[at.value].eventType.WorkflowTaskCompleted?;
    } else {
      forall j | h + 1 < j <= i ensures !es[j].eventType.WorkflowTaskCompleted? { assert later[j] == es[j]; }
    }
  }

  lemma PageJoins(es: seq<Event>, h: nat, i: nat)
    requires h < i < |es| && es[h + 1].eventType.WorkflowTaskCompleted?
    ensures Page(es[..i + 1]).Some?
    ensures es[..h + 1] + Page(es[..i + 1]).value == es[..i + 1] <==> NoCompletionBetween(es, h + 1, i)
  {
    PageLength(es, h, i);
    if NoCompletionBetween(es, h + 1, i) {
      PageIsSlice(es, h, i);
      assert es[..h + 1] + es[h + 1..i + 1] == es[..i + 1];
    }
  }

  /**
   The page law and exactly when it holds: the history for task n - 1 followed by the page for task n
   is the history for task n if and only if no stray completed event lies between the completion of
   task n - 1 (directly behind event `h`) and the start of task n (event `i`).
   */
  lemma PageLaw(es: seq<Event>, n: nat, h: nat, i: nat)
    requires 2 <= n && IsNthTask(es, n - 1, h) && IsNthTask(es, n, i)
    requires HasHeader(es) && IdsIncrease(es) && NoBroken(es, i)
    ensures Validate(es, Some(n - 1)).Accepted? && Validate(es, Some(n)).Accepted?
    ensures var earlier := Validate(es, Some(n - 1)).info.events;
            var later := Validate(es, Some(n)).info.events;
            Page(later).Some? &&
            (earlier + Page(later).value == later <==> NoCompletionBetween(es, h + 1, i))
  {
    if i < h { TaskCountMonotone(es, i + 1, h); }
    CutAtNthTask(es, n - 1, h);
    CutAtNthTask(es, n, i);
    PageJoins(es, h, i);
  }

  /** In a well-formed history no stray completion lies between two consecutive tasks. */
  lemma ConsecutiveTasks(es: seq<Event>, n: nat, h: nat, i: nat)
    requires 1 <= n && IsNthTask(es, n, h) && IsNthTask(es, n + 1, i)
    requires CompletionsFollowStarts(es[..i + 1])
    ensures NoCompletionBetween(es, h + 1, i)
  {
    forall j | h + 1 < j <= i ensures !es[j].eventType.WorkflowTaskCompleted? {
      if es[j].eventType.WorkflowTaskCompleted? {
        assert es[..i + 1][j].eventType.WorkflowTaskCompleted?;
        assert IsTask(es, j - 1);
        TaskCountMonotone(es, h + 1, j - 1);
        TaskCountMonotone(es, j, i);
      }
    }
  }

  /** The first history and the pages 2..n, laid end to end. */
  function Pages(es: seq<Event>, n: nat): Option<seq<Event>> {
    var r := Validate(es, Some(n));
    if !r.Accepted? then None
    else if n <= 1 then Some(r.info.events)
    else
      var front, page := Pages(es, n - 1), Page(r.info.events);
      if front.Some? && page.Some? then Some(front.value + page.value) else None
  }

  /** Events `h` and `i` start the tasks m and m + 1. */
  predicate Consecutive(es: seq<Event>, m: nat, h: nat, i: nat) {
    IsNthTask(es, m, h) && IsNthTask(es, m + 1, i)
  }

  /** Between no two consecutive tasks up to the n-th lies a stray completed event. */
  ghost predicate StrayFree(es: seq<Event>, n: nat) {
    forall m: nat, h: nat, i: nat :: 1 <= m < n && Consecutive(es, m, h, i) ==> NoCompletionBetween(es, h + 1, i)
  }

  lemma StrayFreeStep(es: seq<Event>, n: nat, h: nat, i: nat)
    requires 1 <= n && Consecutive(es, n, h, i)
    ensures StrayFree(es, n + 1) <==> StrayFree(es, n) && NoCompletionBetween(es, h + 1, i)
  {
    forall g: nat, j: nat | Consecutive(es, n, g, j) ensures g == h && j == i {
      NthTaskUnique(es, n, g, h);
      NthTaskUnique(es, n + 1, i, j);
    }
  }

  lemma PreviousTask(es: seq<Event>, n: nat, i: nat) returns (h: nat)
    requires 2 <= n && IsNthTask(es, n, i)
    ensures h < i && IsNthTask(es, n - 1, h) && es[h + 1].eventType.WorkflowTaskCompleted?
  {
    h := NthTaskExists(es, n - 1, i);
  }

  lemma PagesStep(es: seq<Event>, n: nat, h: nat, i: nat)
    requires HasHeader(es) && IdsIncrease(es) && 2 <= n && h < i < |es| && NoBroken(es, i)
    requires Consecutive(es, n - 1, h, i) && Pages(es, n - 1).Some? && es[h + 1].eventType.WorkflowTaskCompleted?
    ensures Page(es[..i + 1]).Some?
    ensures Pages(es, n) == Some(Pages(es, n - 1).value + Page(es[..i + 1]).value)
  {
    CutAtNthTask(es, n, i);
    PageLength(es, h, i);
  }

  /** One page more, `front` being the pages before it and `free` whether they are complete. */
  lemma OneMorePage(es: seq<Event>, h: nat, i: nat, front: seq<Event>, free: bool, all: seq<Event>)
    requires h < i < |es| && es[h + 1].eventType.WorkflowTaskCompleted?
    requires |front| <= h + 1 && (|front| == h + 1 <==> free) && (free ==> front == es[..h + 1])
    requires Page(es[..i + 1]).Some? && all == front + Page(es[..i + 1]).value
    ensures |all| <= i + 1
    ensures |all| == i + 1 <==> free && NoCompletionBetween(es, h + 1, i)
    ensures free && NoCompletionBetween(es, h + 1, i) ==> all == es[..i + 1]
  {
    PageLength(es, h, i);
    if NoCompletionBetween(es, h + 1, i) {
      PageIsSlice(es, h, i);
      assert es[..h + 1] + es[h + 1..i + 1] == es[..i + 1];
    }
  }

  /** The pages are never longer than the history, and as long exactly when none lost events to a stray completion. */
  lemma {:induction false} PagesLength(es: seq<Event>, n: nat, i: nat)
    requires HasHeader(es) && IdsIncrease(es) && 1 <= n && IsNthTask(es, n, i) && NoBroken(es, i)
    ensures Pages(es, n).Some? && |Pages(es, n).value| <= i + 1
    ensures |Pages(es, n).value| == i + 1 <==> StrayFree(es, n)
    ensures StrayFree(es, n) ==> Pages(es, n).value == es[..i + 1]
    decreases n
  {
    if n == 1 {
      CutAtNthTask(es, 1, i);
    } else {
      var h := PreviousTask(es, n, i);
      PagesLength(es, n - 1, h);
      PagesStep(es, n, h, i);
      StrayFreeStep(es, n - 1, h, i);
      OneMorePage(es, h, i, Pages(es, n - 1).value, StrayFree(es, n - 1), Pages(es, n).value);
    }
  }

  /** An accepted cut lies behind no broken task. */
  lemma AcceptedIsUnbroken(es: seq<Event>, n: nat, i: nat)
    requires HasHeader(es) && IdsIncrease(es) && IsNthTask(es, n, i)
    ensures Validate(es, Some(n)).Accepted? <==> NoBroken(es, i)
    ensures Validate(es, Some(n)).Accepted? ==> Validate(es, Some(n)).info.events == es[..i + 1]
  {
    if NoBroken(es, i) {
      CutAtNthTask(es, n, i);
    } else {
      var j := FirstBroken(es, i);
      TaskCountMonotone(es, j, i);
      BrokenIsRejected(es, Some(n), j);
    }
  }

  /**
   Sticky pages and exactly when they rebuild the history, for every task number the validator accepts:
   the first history and the pages 2..n, laid end to end, are the history for task n if and only if no
   stray completed event lies between two of its tasks.
   */
  lemma PagesRebuildIff(es: seq<Event>, n: nat)
    requires HasHeader(es) && IdsIncrease(es)
    requires 1 <= n <= TaskCount(es, |es|) && Validate(es, Some(n)).Accepted?
    ensures Pages(es, n) == Some(Validate(es, Some(n)).info.events) <==> StrayFree(es, n)
  {
    var i := NthTaskExists(es, n, |es|);
    AcceptedIsUnbroken(es, n, i);
    PagesLength(es, n, i);
  }

  lemma PrefixFollows(es: seq<Event>, j: nat, i: nat)
    requires j <= i <= |es| && CompletionsFollowStarts(es[..i])
    ensures CompletionsFollowStarts(es[..j])
  {
    assert es[..j] == es[..i][..j];
  }

  lemma WellFormedIsStrayFree(es: seq<Event>, n: nat, i: nat)
    requires IsNthTask(es, n, i) && CompletionsFollowStarts(es[..i + 1])
    ensures StrayFree(es, n)
  {
    forall m: nat, g: nat, j: nat | 1 <= m < n && Consecutive(es, m, g, j)
      ensures NoCompletionBetween(es, g + 1, j)
    {
      if i < j { TaskCountMonotone(es, i + 1, j); }
      PrefixFollows(es, j + 1, i + 1);
      ConsecutiveTasks(es, m, g, j);
    }
  }

  /** Where completions directly follow starts, the pages rebuild every history that the validator accepts. */
  lemma PagesRebuildHistory(es: seq<Event>, n: nat)
    requires HasHeader(es) && IdsIncrease(es)
    requires 1 <= n <= TaskCount(es, |es|) && Validate(es, Some(n)).Accepted?
    requires CompletionsFollowStarts(Validate(es, Some(n)).info.events)
    ensures Pages(es, n) == Some(Validate(es, Some(n)).info.events)
  {
    var i := NthTaskExists(es, n, |es|);
    AcceptedIsUnbroken(es, n, i);
    WellFormedIsStrayFree(es, n, i);
    PagesRebuildIff(es, n);
  }

  /** Behind the last counted task of a well-formed history only its own completion is a completed event. */
  lemma LastCompletedIsLastTask(es: seq<Event>, h: nat)
    requires CompletionsFollowStarts(es) && IsNthTask(es, TaskCount(es, |es|), h) && h + 1 < |es|
    ensures LastCompleted(es, |es|) == Some(h + 1)
  {
    var at := LastCompleted(es, |es|);
    if h + 1 < at.value {
      assert IsTask(es, at.value - 1);
      TaskCountMonotone(es, h + 1, at.value - 1);
      TaskCountMonotone(es, at.value, |es|);
    }
  }

  lemma WholeHistory(es: seq<Event>, n: nat)
    requires HasHeader(es) && IdsIncrease(es) && NoBroken(es, |es|)
    requires n == TaskCount(es, |es|) && IsFinal(es[|es| - 1])
    ensures Validate(es, Some(n + 1)).Accepted? && Validate(es, Some(n + 1)).info.events == es
  {
    ReadToTheEnd(es, Some(n + 1));
    assert es[..|es|] == es;
  }

  lemma PagesUpToLastTask(es: seq<Event>, n: nat, h: nat)
    requires HasHeader(es) && IdsIncrease(es) && NoBroken(es, |es|) && CompletionsFollowStarts(es)
    requires 1 <= n && IsNthTask(es, n, h)
    ensures Pages(es, n) == Some(es[..h + 1])
  {
    assert es[..|es|] == es;
    PrefixFollows(es, h + 1, |es|);
    WellFormedIsStrayFree(es, n, h);
    PagesLength(es, n, h);
  }

  lemma RemainderIsPage(es: seq<Event>, h: nat)
    requires CompletionsFollowStarts(es) && IsNthTask(es, TaskCount(es, |es|), h) && IsFinal(es[|es| - 1])
    ensures Page(es).Some? && es[..h + 1] + Page(es).value == es
  {
    LastCompletedIsLastTask(es, h);
    assert es[..h + 1] + es[h + 1..] == es;
  }

  /** The last page: asking for one task more than a finished history has yields exactly its remainder. */
  lemma LastPageCompletesHistory(es: seq<Event>, n: nat)
    requires HasHeader(es) && IdsIncrease(es) && NoBroken(es, |es|) && CompletionsFollowStarts(es)
    requires 1 <= n == TaskCount(es, |es|) && IsFinal(es[|es| - 1])
    ensures Pages(es, n + 1) == Some(es)
  {
    var h := NthTaskExists(es, n, |es|);
    PagesUpToLastTask(es, n, h);
    WholeHistory(es, n);
    RemainderIsPage(es, h);
  }

  const STRAY: seq<Event> := [
    Event(WorkflowExecutionStarted, 1, Some(ExecutionStarted("run", Some("type")))),
    Event(WorkflowTaskStarted, 2, None), Event(WorkflowTaskCompleted, 3, None),
    Event(WorkflowTaskCompleted, 4, None), Event(WorkflowTaskStarted, 5, None)]

  predicate IsStray(es: seq<Event>) {
    && |es| == 5
    && es[1].eventType.WorkflowTaskStarted? && es[2].eventType.WorkflowTaskCompleted?
    && es[3].eventType.WorkflowTaskCompleted? && es[4].eventType.WorkflowTaskStarted?
    && !es[0].eventType.WorkflowTaskStarted?
  }

  lemma StrayTasks(es: seq<Event>)
    requires IsStray(es)
    ensures IsNthTask(es, 1, 1) && IsNthTask(es, 2, 4)
    ensures !NoCompletionBetween(es, 2, 4)
  {
    assert TaskCount(es, 1) == 0;
    assert TaskCount(es, 2) == 1;
    assert TaskCount(es, 3) == 1;
    assert TaskCount(es, 4) == 1;
    assert es[3].eventType.WorkflowTaskCompleted?;
  }

  lemma StrayPages(es: seq<Event>)
    requires IsStray(es) && HasHeader(es) && IdsIncrease(es)
    ensures Validate(es, Some(1)).Accepted? && Validate(es, Some(2)).Accepted?
    ensures Page(Validate(es, Some(2)).info.events).Some?
    ensures Validate(es, Some(1)).info.events + Page(Validate(es, Some(2)).info.events).value
            != Validate(es, Some(2)).info.events
  {
    StrayTasks(es);
    PageLaw(es, 2, 1, 4);
  }

  /** A stray completed event, accepted by the validator, makes a page too short. */
  lemma StrayCompletionBreaksPages()
    ensures exists es: seq<Event> ::
              && HasHeader(es) && IdsIncrease(es)
              && Validate(es, Some(1)).Accepted? && Validate(es, Some(2)).Accepted?
              && Page(Validate(es, Some(2)).info.events).Some?
              && Validate(es, Some(1)).info.events + Page(Validate(es, Some(2)).info.events).value
                 != Validate(es, Some(2)).info.events
  {
    var es :| es == STRAY;
    StrayPages(es);
  }
}
