/**
 The history validator: a peeking loop that accepts a history, counts its workflow tasks and cuts it
 at the n-th one, and the in-place cut that imitates delivery on a sticky queue.
 */
module HistoryInfo {
  import opened Common
  import opened HistoryEvents

  datatype Info = Info(
    previousStarted: int,
    started: int,
    events: seq<Event>,
    taskCount: nat,
    workflowType: string,
    startedAttributes: Attributes)

  datatype Failure =
    | EmptyHistory
    | FirstNotExecutionStarted
    | NoWorkflowType
    | EqualStartedIds(id: int)
    | InvalidAfterStarted(next: Event)
    | EndsUnexpectedly

  /** `ReachedUnreachable` is the panic of the `unreachable!()` behind the loop. */
  datatype Outcome = Accepted(info: Info) | Rejected(failure: Failure) | ReachedUnreachable

  // ----- Declarative vocabulary -----

  /** A task counts when its started event is the last event or is directly followed by its completion. */
  predicate IsTask(es: seq<Event>, i: nat)
    requires i < |es|
  {
    es[i].eventType.WorkflowTaskStarted? &&
    (i + 1 == |es| || es[i + 1].eventType.WorkflowTaskCompleted?)
  }

  /** A started event followed by something that neither completes nor abandons it. */
  predicate IsBroken(es: seq<Event>, i: nat)
    requires i < |es|
  {
    && es[i].eventType.WorkflowTaskStarted?
    && i + 1 < |es|
    && !es[i + 1].eventType.WorkflowTaskCompleted?
    && !AbandonsTask(es[i + 1])
  }

  /** How many of the first `k` events are started events of counted tasks. */
  function TaskCount(es: seq<Event>, k: nat): (n: nat)
    requires k <= |es|
    ensures n <= k
  {
    if k == 0 then 0 else TaskCount(es, k - 1) + if IsTask(es, k - 1) then 1 else 0
  }

  /** Id of the latest counted task among the first `k` events, 0 when there is none. */
  function LastTask(es: seq<Event>, k: nat): int
    requires k <= |es|
  {
    if k == 0 then 0 else if IsTask(es, k - 1) then es[k - 1].id else LastTask(es, k - 1)
  }

  /** Event `i` starts the n-th counted task. */
  predicate IsNthTask(es: seq<Event>, n: nat, i: nat) {
    i < |es| && IsTask(es, i) && TaskCount(es, i) + 1 == n
  }

  ghost predicate NoBroken(es: seq<Event>, k: nat)
    requires k <= |es|
  {
    forall j :: 0 <= j < k ==> !IsBroken(es, j)
  }

  /** Among the first `k` events no counted task repeats the id of the one before it. */
  ghost predicate NoRepeat(es: seq<Event>, k: nat)
    requires k <= |es|
  {
    forall j :: 0 <= j < k && IsTask(es, j) ==> es[j].id != LastTask(es, j)
  }

  /** The n-th task is not among the first `k` events, `to` being the n asked for. */
  predicate NotYet(es: seq<Event>, to: Option<nat>, k: nat)
    requires k <= |es|
  {
    to.Some? ==> to.value == 0 || TaskCount(es, k) < to.value
  }

  /** The execution-started header demanded of the first event. */
  predicate HasHeader(es: seq<Event>) {
    && es != []
    && es[0].attributes.Some?
    && es[0].attributes.value.ExecutionStarted?
    && es[0].attributes.value.workflowType.Some?
  }

  function Accept(es: seq<Event>, previous: int, started: int, kept: nat, count: nat): Outcome
    requires HasHeader(es) && kept <= |es|
  {
    var header := es[0].attributes.value;
    Accepted(Info(previous, started, es[..kept], count, header.workflowType.value, header))
  }

  // ----- The loop -----

  /** The loop from event `i` on, with the two variables it carries. */
  function Scan(es: seq<Event>, to: Option<nat>, i: nat, started: int, count: nat): Outcome
    requires HasHeader(es) && i <= |es|
    decreases |es| - i
  {
    if i == |es| then ReachedUnreachable
    else
      var last := i + 1 == |es|;
      if IsTask(es, i) then
        if es[i].id == started then Rejected(EqualStartedIds(started))
        else if to == Some(count + 1) || last then Accept(es, started, es[i].id, i + 1, count + 1)
        else Scan(es, to, i + 1, es[i].id, count + 1)
      else if IsBroken(es, i) then Rejected(InvalidAfterStarted(es[i + 1]))
      else if last && (IsFinal(es[i]) || to.None?) then Accept(es, started, started, i + 1, count)
      else if last && started != es[i].id then Rejected(EndsUnexpectedly)
      else Scan(es, to, i + 1, started, count)
  }

  function Validate(es: seq<Event>, to: Option<nat>): Outcome {
    if es == [] then Rejected(EmptyHistory)
    else if es[0].attributes.None? || !es[0].attributes.value.ExecutionStarted? then
      Rejected(FirstNotExecutionStarted)
    else if es[0].attributes.value.workflowType.None? then Rejected(NoWorkflowType)
    else Scan(es, to, 0, 0, 0)
  }

  /** `HistoryInfo::new_from_history`, statement by statement. */
  method NewFromHistory(es: seq<Event>, to: Option<nat>) returns (r: Outcome)
    ensures r == Validate(es, to)
  {
    if es == [] { return Rejected(EmptyHistory); }
    if es[0].attributes.None? || !es[0].attributes.value.ExecutionStarted? {
      return Rejected(FirstNotExecutionStarted);
    }
    var header := es[0].attributes.value;
    if header.workflowType.None? { return Rejected(NoWorkflowType); }
    var startedId, count := 0, 0;
    var kept: seq<Event> := [];
    var i := 0;
    while i < |es|
      invariant 0 <= i <= |es|
      invariant kept == es[..i]
      invariant Validate(es, to) == Scan(es, to, i, startedId, count)
    {
      var event := es[i];
      kept := kept + [event];
      var next := if i + 1 < |es| then Some(es[i + 1]) else None;
      if event.eventType.WorkflowTaskStarted? {
        if next.None? || next.value.eventType.WorkflowTaskCompleted? {
          var previous := startedId;
          startedId := event.id;
          if startedId == previous { return Rejected(EqualStartedIds(startedId)); }
          count := count + 1;
          if to == Some(count) || next.None? {
            return Accepted(Info(previous, startedId, kept, count, header.workflowType.value, header));
          }
        } else if !AbandonsTask(next.value) {
          return Rejected(InvalidAfterStarted(next.value));
        }
      }
      if next.None? {
        if IsFinal(event) || to.None? {
          return Accepted(Info(startedId, startedId, kept, count, header.workflowType.value, header));
        }
        if startedId != event.id { return Rejected(EndsUnexpectedly); }
      }
      i := i + 1;
    }
    r := ReachedUnreachable;
  }

  // ----- What the loop computes -----

  lemma {:induction false} LastTaskBelow(es: seq<Event>, k: nat)
    requires IdsIncrease(es) && k < |es|
    ensures 0 <= LastTask(es, k) < es[k].id
  {
    if k > 0 { LastTaskBelow(es, k - 1); }
  }

  lemma IncreasingIdsDoNotRepeat(es: seq<Event>)
    requires IdsIncrease(es)
    ensures NoRepeat(es, |es|)
  {
    forall j | 0 <= j < |es| ensures es[j].id != LastTask(es, j) { LastTaskBelow(es, j); }
  }

  lemma {:induction false} TaskCountMonotone(es: seq<Event>, j: nat, k: nat)
    requires j <= k <= |es|
    ensures TaskCount(es, j) <= TaskCount(es, k)
  {
    if j < k { TaskCountMonotone(es, j, k - 1); }
  }

  /** Only one event can start the n-th task. */
  lemma NthTaskUnique(es: seq<Event>, n: nat, i: nat, j: nat)
    requires IsNthTask(es, n, i) && IsNthTask(es, n, j)
    ensures i == j
  {
    if i < j { TaskCountMonotone(es, i + 1, j); }
    if j < i { TaskCountMonotone(es, j + 1, i); }
  }

  /** Every number up to the total is the number of some task. */
  lemma {:induction false} NthTaskExists(es: seq<Event>, n: nat, k: nat) returns (i: nat)
    requires k <= |es| && 1 <= n <= TaskCount(es, k)
    ensures i < k && IsNthTask(es, n, i)
  {
    if n <= TaskCount(es, k - 1) { i := NthTaskExists(es, n, k - 1); } else { i := k - 1; }
  }

  /** The id remembered on reaching task n is that of task n - 1. */
  lemma {:induction false} LastTaskIsPrevious(es: seq<Event>, n: nat, h: nat, k: nat)
    requires IsNthTask(es, n, h) && h < k <= |es| && TaskCount(es, k) == n
    ensures LastTask(es, k) == es[h].id
  {
    if h + 1 < k {
      TaskCountMonotone(es, h + 1, k - 1);
      LastTaskIsPrevious(es, n, h, k - 1);
    }
  }

  /** While nothing is broken and the n-th task has not come, the loop carries exactly the declarative values. */
  lemma {:induction false} ScanReaches(es: seq<Event>, to: Option<nat>, k: nat)
    requires HasHeader(es) && k < |es|
    requires NoBroken(es, k) && NoRepeat(es, k) && NotYet(es, to, k)
    ensures Validate(es, to) == Scan(es, to, k, LastTask(es, k), TaskCount(es, k))
  {
    if k > 0 { ScanReaches(es, to, k - 1); }
  }

  /** Cutting at the n-th task: a prefix, exactly n tasks, and the ids of tasks n and n - 1. */
  lemma CutAtNthTask(es: seq<Event>, n: nat, i: nat)
    requires HasHeader(es) && IdsIncrease(es)
    requires IsNthTask(es, n, i) && NoBroken(es, i)
    ensures Validate(es, Some(n)) == Accept(es, LastTask(es, i), es[i].id, i + 1, n)
  {
    IncreasingIdsDoNotRepeat(es);
    ScanReaches(es, Some(n), i);
  }

  /** Without an n-th task an unbroken history is read to its end, and how it ends decides. */
  lemma ReadToTheEnd(es: seq<Event>, to: Option<nat>)
    requires HasHeader(es) && IdsIncrease(es) && NoBroken(es, |es|) && NotYet(es, to, |es|)
    ensures var m := |es| - 1; var end := es[m];
            Validate(es, to) ==
            if end.eventType.WorkflowTaskStarted? then
              Accept(es, LastTask(es, m), end.id, |es|, TaskCount(es, |es|))
            else if IsFinal(end) || to.None? then
              Accept(es, LastTask(es, |es|), LastTask(es, |es|), |es|, TaskCount(es, |es|))
            else Rejected(EndsUnexpectedly)
  {
    var m := |es| - 1;
    TaskCountMonotone(es, m, |es|);
    IncreasingIdsDoNotRepeat(es);
    ScanReaches(es, to, m);
    LastTaskBelow(es, m);
  }

  /** A broken task before the cut rejects the history, naming the event behind the first broken one. */
  lemma BrokenIsRejected(es: seq<Event>, to: Option<nat>, j: nat)
    requires HasHeader(es) && IdsIncrease(es) && j < |es|
    requires IsBroken(es, j) && NoBroken(es, j) && NotYet(es, to, j)
    ensures Validate(es, to) == Rejected(InvalidAfterStarted(es[j + 1]))
  {
    IncreasingIdsDoNotRepeat(es);
    ScanReaches(es, to, j);
  }

  /** A counted task that repeats the id of the one before it, before the cut, is rejected with that id. */
  lemma RepeatIsRejected(es: seq<Event>, to: Option<nat>, j: nat)
    requires HasHeader(es) && j < |es|
    requires NoBroken(es, j) && NoRepeat(es, j) && NotYet(es, to, j)
    requires IsTask(es, j) && es[j].id == LastTask(es, j)
    ensures Validate(es, to) == Rejected(EqualStartedIds(es[j].id))
  {
    ScanReaches(es, to, j);
  }

  /** A history that does not begin with a complete execution start is rejected, and how. */
  lemma HeaderIsDemanded(es: seq<Event>, to: Option<nat>)
    ensures es == [] ==> Validate(es, to) == Rejected(EmptyHistory)
    ensures es != [] && (es[0].attributes.None? || !es[0].attributes.value.ExecutionStarted?) ==>
              Validate(es, to) == Rejected(FirstNotExecutionStarted)
    ensures (&& es != [] && es[0].attributes.Some? && es[0].attributes.value.ExecutionStarted?
             && es[0].attributes.value.workflowType.None?) ==> Validate(es, to) == Rejected(NoWorkflowType)
    ensures Validate(es, to).Accepted? ==> HasHeader(es)
  {
  }

  /** What an accepted history reports of its header. */
  lemma HeaderIsReported(es: seq<Event>, to: Option<nat>)
    requires Validate(es, to).Accepted?
    ensures HasHeader(es)
    ensures Validate(es, to).info.startedAttributes == es[0].attributes.value
    ensures Validate(es, to).info.workflowType == es[0].attributes.value.workflowType.value
  {
    ScanReportsHeader(es, to, 0, 0, 0);
  }

  lemma {:induction false} ScanReportsHeader(es: seq<Event>, to: Option<nat>, i: nat, started: int, count: nat)
    requires HasHeader(es) && i <= |es| && Scan(es, to, i, started, count).Accepted?
    ensures var info := Scan(es, to, i, started, count).info;
            info.startedAttributes == es[0].attributes.value
            && info.workflowType == es[0].attributes.value.workflowType.value
    decreases |es| - i
  {
    if Scan(es, to, i, started, count) != Accept(es, started, es[i].id, i + 1, count + 1)
       && Scan(es, to, i, started, count) != Accept(es, started, started, i + 1, count)
    {
      ScanReportsHeader(es, to, i + 1, if IsTask(es, i) then es[i].id else started,
                        if IsTask(es, i) then count + 1 else count);
    }
  }

  /** When the request can be met: the cut exists behind no broken task, or the unbroken history ends properly. */
  ghost predicate Satisfiable(es: seq<Event>, to: Option<nat>)
    requires es != []
  {
    || (to.Some? && exists i :: IsNthTask(es, to.value, i) && NoBroken(es, i))
    || (&& NoBroken(es, |es|)
        && (|| to.None?
            || es[|es| - 1].eventType.WorkflowTaskStarted?
            || IsFinal(es[|es| - 1])))
  }

  lemma FirstBroken(es: seq<Event>, k: nat) returns (j: nat)
    requires k <= |es| && !NoBroken(es, k)
    ensures j < k && IsBroken(es, j) && NoBroken(es, j)
  {
    j := 0;
    while !IsBroken(es, j)
      invariant j < k && NoBroken(es, j)
      invariant exists m :: j <= m < k && IsBroken(es, m)
      decreases k - j
    {
      j := j + 1;
    }
  }

  /** Whether a history is accepted is decided by its shape alone; the two impossible results never occur. */
  lemma ValidatorSpec(es: seq<Event>, to: Option<nat>)
    requires HasHeader(es) && IdsIncrease(es)
    ensures Validate(es, to).Accepted? <==> Satisfiable(es, to)
    ensures !Validate(es, to).ReachedUnreachable?
    ensures Validate(es, to).Rejected? ==>
              Validate(es, to).failure.EndsUnexpectedly? || Validate(es, to).failure.InvalidAfterStarted?
  {
    var n := if to.Some? then to.value else 0;
    if 1 <= n <= TaskCount(es, |es|) {
      var i := NthTaskExists(es, n, |es|);
      if NoBroken(es, i) {
        CutAtNthTask(es, n, i);
      } else {
        var j := FirstBroken(es, i);
        TaskCountMonotone(es, j, i);
        BrokenIsRejected(es, to, j);
        forall m: nat | IsNthTask(es, n, m) ensures m == i { NthTaskUnique(es, n, i, m); }
      }
    } else {
      forall m: nat | m < |es| ensures !IsNthTask(es, n, m) { TaskCountMonotone(es, m + 1, |es|); }
      if NoBroken(es, |es|) {
        ReadToTheEnd(es, to);
      } else {
        var j := FirstBroken(es, |es|);
        TaskCountMonotone(es, j, |es|);
        BrokenIsRejected(es, to, j);
      }
    }
  }

  /** Unbroken, without the n-th task, and ending on neither a start nor a final event but on the latest task's id. */
  ghost predicate EndsOnRepeatedId(es: seq<Event>, to: Option<nat>)
    requires es != []
  {
    var end := es[|es| - 1];
    && to.Some? && NotYet(es, to, |es|) && NoBroken(es, |es|) && NoRepeat(es, |es|)
    && !end.eventType.WorkflowTaskStarted? && !IsFinal(end) && end.id == LastTask(es, |es|)
  }

  lemma {:induction false} PanicMeansRepeatedId(es: seq<Event>, to: Option<nat>, k: nat)
    requires HasHeader(es) && k < |es|
    requires NoBroken(es, k) && NoRepeat(es, k) && NotYet(es, to, k)
    requires Scan(es, to, k, LastTask(es, k), TaskCount(es, k)).ReachedUnreachable?
    ensures EndsOnRepeatedId(es, to)
    decreases |es| - k
  {
    if k + 1 < |es| { PanicMeansRepeatedId(es, to, k + 1); }
  }

  /** Exactly when the panic behind the loop is reached, whatever the ids are. */
  lemma UnreachableIff(es: seq<Event>, to: Option<nat>)
    requires HasHeader(es)
    ensures Validate(es, to).ReachedUnreachable? <==> EndsOnRepeatedId(es, to)
  {
    if EndsOnRepeatedId(es, to) {
      ScanReaches(es, to, |es| - 1);
    } else if Validate(es, to).ReachedUnreachable? {
      PanicMeansRepeatedId(es, to, 0);
    }
  }

  /** Ids alone keep the loop away from its panic: a repeated id reaches it. */
  lemma UnreachableIsReachableWithoutIncreasingIds()
    ensures exists es: seq<Event> :: HasHeader(es) && Validate(es, Some(5)).ReachedUnreachable?
  {
    var es := [Event(WorkflowExecutionStarted, 0, Some(ExecutionStarted("run", Some("type"))))];
    assert Scan(es, Some(5), 1, 0, 0) == ReachedUnreachable;
    assert Validate(es, Some(5)).ReachedUnreachable?;
  }

  /** Whatever follows the completion of the n-th task cannot change the answer for n, whatever the ids are. */
  lemma TailIsIrrelevant(es: seq<Event>, n: nat, i: nat, tail: seq<Event>)
    requires IsNthTask(es, n, i) && i + 1 < |es|
    ensures Validate(es[..i + 2] + tail, Some(n)) == Validate(es, Some(n))
  {
    var es' := es[..i + 2] + tail;
    if HasHeader(es) { ScanAgrees(es, es', n, i, 0, 0); }
  }

  lemma {:induction false} ScanAgrees(es: seq<Event>, es': seq<Event>, n: nat, i: nat, k: nat, started: int)
    requires HasHeader(es) && HasHeader(es')
    requires IsNthTask(es, n, i) && i + 1 < |es| && i + 1 < |es'| && es'[..i + 2] == es[..i + 2]
    requires k <= i
    ensures Scan(es', Some(n), k, started, TaskCount(es, k)) == Scan(es, Some(n), k, started, TaskCount(es, k))
    decreases i - k
  {
    assert forall j :: 0 <= j < i + 2 ==> es'[j] == es'[..i + 2][j];
    assert forall j :: 0 <= j < i + 2 ==> es[j] == es[..i + 2][j];
    TaskCountMonotone(es, k + 1, i + 1);
    if k < i {
      TaskCountMonotone(es, k + 1, i);
      ScanAgrees(es, es', n, i, k + 1, if IsTask(es, k) then es[k].id else started);
    } else {
      assert es'[..i + 1] == es'[..i + 2][..i + 1];
      assert es[..i + 1] == es[..i + 2][..i + 1];
    }
  }
}
