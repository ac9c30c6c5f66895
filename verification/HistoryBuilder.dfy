/**
 The test history builder: appends events with consecutive ids and caches the ids of the latest
 workflow task. Its scripts are always accepted by the validator, and its cached ids are always the
 ones a rescan of the events finds.
 */
module HistoryBuilder {
  import opened Common
  import opened HistoryEvents
  import opened HistoryInfo
  import opened HistoryPages

  /** The builder's fields as one value. */
  datatype Builder = Builder(
    events: seq<Event>,
    currentEventId: int,
    scheduledId: int,
    startedId: int,
    completedId: int,
    runId: string)

  const EMPTY := Builder([], 0, 0, 0, 0, "")

  function Push(b: Builder, t: EventType, a: Attributes): Builder {
    var id := b.currentEventId + 1;
    b.(events := b.events + [Event(t, id, Some(a))],
       currentEventId := id,
       runId := if a.ExecutionStarted? then a.originalRunId else b.runId)
  }

  /** The workflow-task methods, and every other method as one push of an event. */
  datatype Call = Scheduled | Started | Completed | TimedOut | Failed | Add(t: EventType, a: Attributes)

  function Apply(b: Builder, c: Call): Builder {
    match c
    case Scheduled =>
      var p := Push(b, WorkflowTaskScheduled, OtherAttributes);
      p.(scheduledId := p.currentEventId)
    case Started =>
      var p := Push(b, WorkflowTaskStarted, TaskStarted(b.scheduledId, (|b.events| + 1) * 10));
      p.(startedId := p.currentEventId)
    case Completed =>
      var p := Push(b, WorkflowTaskCompleted, TaskClosed(b.scheduledId));
      p.(completedId := p.currentEventId)
    case TimedOut => Push(b, WorkflowTaskTimedOut, TaskClosed(b.scheduledId))
    case Failed => Push(b, WorkflowTaskFailed, TaskClosed(b.scheduledId))
    case Add(t, a) => Push(b, t, a)
  }

  function Run(b: Builder, calls: seq<Call>): Builder {
    if calls == [] then b else Apply(Run(b, calls[..|calls| - 1]), calls[|calls| - 1])
  }

  /** Id of the latest event of type `t` among the first `k`, 0 when there is none. */
  function LastIdOf(es: seq<Event>, t: EventType, k: nat): int
    requires k <= |es|
  {
    if k == 0 then 0 else if es[k - 1].eventType == t then es[k - 1].id else LastIdOf(es, t, k - 1)
  }

  /** `from_history`; `None` is its panic on a history that does not start with an execution-started event. */
  function FromHistory(es: seq<Event>): Option<Builder> {
    if es == [] || es[0].attributes.None? || !es[0].attributes.value.ExecutionStarted? then None
    else Some(Builder(es, es[|es| - 1].id,
                      LastIdOf(es, WorkflowTaskScheduled, |es|),
                      LastIdOf(es, WorkflowTaskStarted, |es|),
                      LastIdOf(es, WorkflowTaskCompleted, |es|),
                      es[0].attributes.value.originalRunId))
  }

  class TestHistoryBuilder {
    var events: seq<Event>
    var currentEventId: int
    var scheduledId: int
    var startedId: int
    var completedId: int
    var runId: string

    ghost function State(): Builder
      reads this
    {
      Builder(events, currentEventId, scheduledId, startedId, completedId, runId)
    }

    constructor ()
      ensures State() == EMPTY
    {
      events, currentEventId, scheduledId, startedId, completedId, runId := [], 0, 0, 0, 0, "";
    }

    method BuildAndPushEvent(t: EventType, a: Attributes) returns (id: int)
      modifies this
      ensures State() == Push(old(State()), t, a) && id == currentEventId
    {
      currentEventId := currentEventId + 1;
      if a.ExecutionStarted? { runId := a.originalRunId; }
      events := events + [Event(t, currentEventId, Some(a))];
      id := currentEventId;
    }

    method AddWorkflowTaskScheduled()
      modifies this
      ensures State() == Apply(old(State()), Scheduled)
    {
      var id := BuildAndPushEvent(WorkflowTaskScheduled, OtherAttributes);
      scheduledId := id;
    }

    method AddWorkflowTaskStarted()
      modifies this
      ensures State() == Apply(old(State()), Started)
    {
      var id := BuildAndPushEvent(WorkflowTaskStarted, TaskStarted(scheduledId, (|events| + 1) * 10));
      startedId := id;
    }

    method AddWorkflowTaskCompleted()
      modifies this
      ensures State() == Apply(old(State()), Completed)
    {
      var id := BuildAndPushEvent(WorkflowTaskCompleted, TaskClosed(scheduledId));
      completedId := id;
    }

    method AddWorkflowTaskTimedOut()
      modifies this
      ensures State() == Apply(old(State()), TimedOut)
    {
      var _ := BuildAndPushEvent(WorkflowTaskTimedOut, TaskClosed(scheduledId));
    }

    method AddWorkflowTaskFailed()
      modifies this
      ensures State() == Apply(old(State()), Failed)
    {
      var _ := BuildAndPushEvent(WorkflowTaskFailed, TaskClosed(scheduledId));
    }

    method AddFullWfTask()
      modifies this
      ensures State() == Block(old(State()), CompletedTask)
    {
      AddWorkflowTaskScheduledAndStarted();
      AddWorkflowTaskCompleted();
    }

    method AddWorkflowTaskScheduledAndStarted()
      modifies this
      ensures State() == Trail(old(State()))
    {
      AddWorkflowTaskScheduled();
      AddWorkflowTaskStarted();
    }

    method GetHistoryInfo(k: nat) returns (r: Outcome)
      ensures r == Validate(events, Some(k))
    {
      r := NewFromHistory(events, Some(k));
    }

    /** `get_one_wft`: the validated history, cut down in place to its page. */
    method GetOneWft(k: nat) returns (r: OneTask)
      ensures r == OneWft(events, k)
    {
      var o := NewFromHistory(events, Some(k));
      if !o.Accepted? { return NotValidated(o); }
      var h := new ValidatedHistory(o.info);
      var ok := h.MakeIncremental();
      r := if ok then Delivered(h.info) else NoCompletedTask;
    }
  }

  /** A task as delivered, the validator's refusal, or the panic of a history without a completed task. */
  datatype OneTask = Delivered(info: Info) | NotValidated(outcome: Outcome) | NoCompletedTask

  function OneWft(es: seq<Event>, k: nat): OneTask {
    var o := Validate(es, Some(k));
    if !o.Accepted? then NotValidated(o)
    else
      var page := Page(o.info.events);
      if page.Some? then Delivered(o.info.(events := page.value)) else NoCompletedTask
  }

  // ----- Cached ids agree with a rescan -----

  predicate IsCachedType(t: EventType) {
    t.WorkflowTaskScheduled? || t.WorkflowTaskStarted? || t.WorkflowTaskCompleted?
  }

  /** Calls that do not smuggle in a task event or a second execution start behind the caches' back. */
  predicate Named(c: Call) {
    c.Add? ==> !IsCachedType(c.t) && !c.a.ExecutionStarted?
  }

  lemma {:induction false} LastIdOfPrefix(es: seq<Event>, e: Event, t: EventType, k: nat)
    requires k <= |es|
    ensures LastIdOf(es + [e], t, k) == LastIdOf(es, t, k)
  {
    if k > 0 { LastIdOfPrefix(es, e, t, k - 1); }
  }

  /** No event has an id beyond the counter. */
  ghost predicate IdsUpToCounter(b: Builder) {
    0 <= b.currentEventId && forall i :: 0 <= i < |b.events| ==> b.events[i].id <= b.currentEventId
  }

  lemma {:induction false} LastIdUpToCounter(b: Builder, t: EventType, k: nat)
    requires IdsUpToCounter(b) && k <= |b.events|
    ensures LastIdOf(b.events, t, k) <= b.currentEventId
  {
    if k > 0 { LastIdUpToCounter(b, t, k - 1); }
  }

  /** A call keeps the caches in agreement with the events if and only if it is not one of those. */
  lemma RescanStep(b: Builder, c: Call)
    requires FromHistory(b.events) == Some(b) && IdsUpToCounter(b)
    ensures FromHistory(Apply(b, c).events) == Some(Apply(b, c))
            <==> Named(c) || (!IsCachedType(c.t) && c.a.originalRunId == b.runId)
    ensures IdsUpToCounter(Apply(b, c))
  {
    var es, e := b.events, Apply(b, c).events[|b.events|];
    forall t: EventType ensures LastIdOf(es + [e], t, |es|) == LastIdOf(es, t, |es|) <= b.currentEventId {
      LastIdOfPrefix(es, e, t, |es|);
      LastIdUpToCounter(b, t, |es|);
    }
  }

  /** Rescanning the events rebuilds every cached field, after any calls, from any state that itself agrees. */
  lemma {:induction false} RescanAgrees(b: Builder, calls: seq<Call>)
    requires FromHistory(b.events) == Some(b) && IdsUpToCounter(b)
    requires forall c :: c in calls ==> Named(c)
    ensures FromHistory(Run(b, calls).events) == Some(Run(b, calls)) && IdsUpToCounter(Run(b, calls))
  {
    if calls != [] {
      RescanAgrees(b, calls[..|calls| - 1]);
      RescanStep(Run(b, calls[..|calls| - 1]), calls[|calls| - 1]);
    }
  }

  /** The state after the execution-started event. */
  function Begin(runId: string, workflowType: string): (b: Builder)
    ensures FromHistory(b.events) == Some(b) && IdsUpToCounter(b)
  {
    var header := ExecutionStarted(runId, Some(workflowType));
    var first := Event(WorkflowExecutionStarted, 1, Some(header));
    assert EMPTY.events + [first] == [first];
    assert forall t: EventType :: t != WorkflowExecutionStarted ==> LastIdOf([first], t, 1) == 0;
    Push(EMPTY, WorkflowExecutionStarted, header)
  }

  /** A task event added under another method's name is not cached, and the rescan sees the difference. */
  lemma UnnamedTaskEventBreaksTheCache(runId: string, workflowType: string)
    ensures var b := Apply(Begin(runId, workflowType), Add(WorkflowTaskScheduled, OtherAttributes));
            FromHistory(b.events) != Some(b)
  {
    var b := Apply(Begin(runId, workflowType), Add(WorkflowTaskScheduled, OtherAttributes));
    assert b.scheduledId == 0 && LastIdOf(b.events, WorkflowTaskScheduled, 2) == 2;
  }

  // ----- Scripts are accepted -----

  datatype Op = CompletedTask | FailedTask | TimedOutTask | NonTask(t: EventType, a: Attributes)

  predicate IsTaskType(t: EventType) {
    || t.WorkflowTaskScheduled? || t.WorkflowTaskStarted? || t.WorkflowTaskCompleted?
    || t.WorkflowTaskFailed? || t.WorkflowTaskTimedOut?
  }

  predicate ProperOp(op: Op) {
    op.NonTask? ==> !IsTaskType(op.t) && op.a.OtherAttributes?
  }

  function Trail(b: Builder): Builder {
    Apply(Apply(b, Scheduled), Started)
  }

  function Block(b: Builder, op: Op): Builder {
    match op
    case CompletedTask => Apply(Trail(b), Completed)
    case FailedTask => Apply(Trail(b), Failed)
    case TimedOutTask => Apply(Trail(b), TimedOut)
    case NonTask(t, a) => Apply(b, Add(t, a))
  }

  function Build(b: Builder, script: seq<Op>): Builder {
    if script == [] then b else Block(Build(b, script[..|script| - 1]), script[|script| - 1])
  }

  // What the script alone says about lengths and started ids.

  function Length(script: seq<Op>): nat {
    if script == [] then 1
    else Length(script[..|script| - 1]) + if script[|script| - 1].NonTask? then 1 else 3
  }

  /** Started ids of the completed tasks, and of the trailing one. */
  function Starts(script: seq<Op>, trailing: bool): seq<int> {
    if trailing then Starts(script, false) + [Length(script) + 2]
    else if script == [] then []
    else
      var front := script[..|script| - 1];
      Starts(front, false) + if script[|script| - 1].CompletedTask? then [Length(front) + 2] else []
  }

  /** A history with consecutive ids whose counted tasks start at exactly the given ids. */
  ghost predicate HasTasks(es: seq<Event>, starts: seq<int>) {
    && HasHeader(es)
    && (forall i :: 0 <= i < |es| ==> es[i].id == i + 1)
    && NoBroken(es, |es|)
    && CompletionsFollowStarts(es)
    && TaskCount(es, |es|) == |starts|
    && (forall k :: 0 <= k < |starts| ==> 1 <= starts[k] <= |es| && IsNthTask(es, k + 1, starts[k] - 1))
  }

  /** Appending to a history that does not end in a started event leaves its tasks as they were. */
  lemma {:induction false} TasksStay(es: seq<Event>, more: seq<Event>, k: nat)
    requires es != [] && !es[|es| - 1].eventType.WorkflowTaskStarted? && k <= |es|
    ensures TaskCount(es + more, k) == TaskCount(es, k)
    ensures forall i :: 0 <= i < k ==>
                          IsTask(es + more, i) == IsTask(es, i) && IsBroken(es + more, i) == IsBroken(es, i)
  {
    if k > 0 { TasksStay(es, more, k - 1); }
  }

  /** Tasks found before stay the n-th ones. */
  lemma StartsStay(es: seq<Event>, starts: seq<int>, more: seq<Event>)
    requires HasTasks(es, starts) && !es[|es| - 1].eventType.WorkflowTaskStarted?
    ensures forall k :: 0 <= k < |starts| ==>
                          1 <= starts[k] <= |es| && IsNthTask(es + more, k + 1, starts[k] - 1)
    ensures TaskCount(es + more, |es|) == |starts| && NoBroken(es + more, |es|)
  {
    TasksStay(es, more, |es|);
    forall k | 0 <= k < |starts| ensures IsNthTask(es + more, k + 1, starts[k] - 1) {
      TasksStay(es, more, starts[k] - 1);
    }
  }

  lemma AppendPlain(es: seq<Event>, starts: seq<int>, e: Event)
    requires HasTasks(es, starts) && !es[|es| - 1].eventType.WorkflowTaskStarted?
    requires e.id == |es| + 1 && !IsTaskType(e.eventType)
    ensures HasTasks(es + [e], starts)
  {
    StartsStay(es, starts, [e]);
    assert !IsTask(es + [e], |es|) && !IsBroken(es + [e], |es|);
  }

  /** A task appended whole, or left open behind its started event; it counts unless it is abandoned. */
  lemma AppendTask(es: seq<Event>, starts: seq<int>, more: seq<Event>, counts: bool)
    requires HasTasks(es, starts) && !es[|es| - 1].eventType.WorkflowTaskStarted?
    requires 2 <= |more| <= 3 && forall i :: 0 <= i < |more| ==> more[i].id == |es| + i + 1
    requires more[0].eventType.WorkflowTaskScheduled? && more[1].eventType.WorkflowTaskStarted?
    requires |more| == 3 ==> more[2].eventType.WorkflowTaskCompleted? || AbandonsTask(more[2])
    requires counts <==> |more| == 2 || more[2].eventType.WorkflowTaskCompleted?
    ensures HasTasks(es + more, starts + if counts then [|es| + 2] else [])
  {
    var es' := es + more;
    StartsStay(es, starts, more);
    assert !IsTask(es', |es|) && !IsBroken(es', |es|) && !IsBroken(es', |es| + 1);
    assert TaskCount(es', |es| + 1) == |starts|;
    assert IsTask(es', |es| + 1) <==> counts;
    if |more| == 3 {
      assert !IsTask(es', |es| + 2) && !IsBroken(es', |es| + 2);
      assert TaskCount(es', |es| + 3) == TaskCount(es', |es| + 2);
    }
  }

  /** A finished block behind `p`: ids are 1..len and no task is open. */
  ghost predicate Closed(p: Builder, starts: seq<int>) {
    && HasTasks(p.events, starts)
    && p.currentEventId == |p.events|
    && !p.events[|p.events| - 1].eventType.WorkflowTaskStarted?
  }

  /** The events one operation appends. */
  lemma BlockEvents(p: Builder, op: Op) returns (more: seq<Event>)
    requires ProperOp(op)
    ensures Block(p, op).events == p.events + more
    ensures Block(p, op).currentEventId == p.currentEventId + |more|
    ensures forall i :: 0 <= i < |more| ==> more[i].id == p.currentEventId + i + 1
    ensures if op.NonTask? then |more| == 1 && !IsTaskType(more[0].eventType)
            else
              && |more| == 3
              && more[0].eventType.WorkflowTaskScheduled? && more[1].eventType.WorkflowTaskStarted?
              && (if op.CompletedTask? then more[2].eventType.WorkflowTaskCompleted?
                  else AbandonsTask(more[2]) && !more[2].eventType.WorkflowTaskCompleted?)
  {
    var r := Block(p, op);
    more := r.events[|p.events|..];
    assert r.events == p.events + more;
  }

  lemma ClosedStep(p: Builder, starts: seq<int>, op: Op)
    requires Closed(p, starts) && ProperOp(op)
    ensures Closed(Block(p, op), starts + if op.CompletedTask? then [|p.events| + 2] else [])
    ensures |Block(p, op).events| == |p.events| + if op.NonTask? then 1 else 3
  {
    var more := BlockEvents(p, op);
    if op.NonTask? {
      AppendPlain(p.events, starts, more[0]);
      assert more == [more[0]];
    } else {
      AppendTask(p.events, starts, more, op.CompletedTask?);
    }
  }

  /** Ids are 1..len and the tasks are where the script puts them. */
  lemma {:induction false} ScriptTasks(b: Builder, script: seq<Op>)
    requires Closed(b, []) && |b.events| == 1
    requires forall op :: op in script ==> ProperOp(op)
    ensures Closed(Build(b, script), Starts(script, false))
    ensures |Build(b, script).events| == Length(script)
  {
    if script != [] {
      var front := script[..|script| - 1];
      ScriptTasks(b, front);
      ClosedStep(Build(b, front), Starts(front, false), script[|script| - 1]);
    }
  }

  lemma BeginIsClosed(runId: string, workflowType: string)
    ensures Closed(Begin(runId, workflowType), [])
  {
    var es := Begin(runId, workflowType).events;
    assert TaskCount(es, 1) == 0;
  }

  lemma TrailTasks(p: Builder, starts: seq<int>)
    requires Closed(p, starts)
    ensures HasTasks(Trail(p).events, starts + [|p.events| + 2])
  {
    var more := Trail(p).events[|p.events|..];
    assert Trail(p).events == p.events + more;
    AppendTask(p.events, starts, more, true);
  }

  /** A whole script: one execution start, the operations, and possibly a task left open. */
  function Scripted(runId: string, workflowType: string, script: seq<Op>, trailing: bool): Builder {
    var b := Build(Begin(runId, workflowType), script);
    if trailing then Trail(b) else b
  }

  // What the script alone says about every event.

  function TaskEvents(n: nat, closing: EventType): seq<Event> {
    [Event(WorkflowTaskScheduled, n + 1, Some(OtherAttributes)),
     Event(WorkflowTaskStarted, n + 2, Some(TaskStarted(n + 1, (n + 2) * 10))),
     Event(closing, n + 3, Some(TaskClosed(n + 1)))]
  }

  /** The events of one operation behind `n` others. */
  function OpEvents(n: nat, op: Op): seq<Event> {
    match op
    case CompletedTask => TaskEvents(n, WorkflowTaskCompleted)
    case FailedTask => TaskEvents(n, WorkflowTaskFailed)
    case TimedOutTask => TaskEvents(n, WorkflowTaskTimedOut)
    case NonTask(t, a) => [Event(t, n + 1, Some(a))]
  }

  function ScriptEvents(first: Event, script: seq<Op>): seq<Event> {
    if script == [] then [first]
    else
      var front := ScriptEvents(first, script[..|script| - 1]);
      front + OpEvents(|front|, script[|script| - 1])
  }

  lemma BlockAppends(b: Builder, op: Op)
    requires b.currentEventId == |b.events|
    ensures Block(b, op).events == b.events + OpEvents(|b.events|, op)
    ensures Block(b, op).currentEventId == |Block(b, op).events|
  {
  }

  lemma {:induction false} BuildAppends(b: Builder, script: seq<Op>)
    requires |b.events| == 1 && b.currentEventId == 1
    ensures Build(b, script).events == ScriptEvents(b.events[0], script)
    ensures Build(b, script).currentEventId == |Build(b, script).events|
  {
    if script != [] {
      BuildAppends(b, script[..|script| - 1]);
      BlockAppends(Build(b, script[..|script| - 1]), script[|script| - 1]);
    }
  }

  /** A scripted history, event by event: types, ids, and what each workflow task event refers to. */
  lemma ScriptedEvents(runId: string, workflowType: string, script: seq<Op>, trailing: bool)
    ensures var first := Event(WorkflowExecutionStarted, 1, Some(ExecutionStarted(runId, Some(workflowType))));
            var es := ScriptEvents(first, script);
            Scripted(runId, workflowType, script, trailing).events ==
            if trailing then es + TaskEvents(|es|, WorkflowTaskCompleted)[..2] else es
    ensures Scripted(runId, workflowType, [], false).runId == runId
  {
    var b := Begin(runId, workflowType);
    BuildAppends(b, script);
    if trailing {
      var p := Build(b, script);
      assert Trail(p).events == p.events + TaskEvents(|p.events|, WorkflowTaskCompleted)[..2];
    }
  }

  lemma FinishedScript(runId: string, workflowType: string, script: seq<Op>)
    requires forall op :: op in script ==> ProperOp(op)
    ensures var b := Begin(runId, workflowType);
            Closed(Build(b, script), Starts(script, false)) && |Build(b, script).events| == Length(script)
            && Build(b, script).events[0] == b.events[0]
  {
    BeginIsClosed(runId, workflowType);
    ScriptTasks(Begin(runId, workflowType), script);
    ScriptHeader(Begin(runId, workflowType), script);
  }

  lemma ScriptedTasks(runId: string, workflowType: string, script: seq<Op>, trailing: bool)
    requires forall op :: op in script ==> ProperOp(op)
    ensures HasTasks(Scripted(runId, workflowType, script, trailing).events, Starts(script, trailing))
    ensures Scripted(runId, workflowType, script, trailing).events[0] == Begin(runId, workflowType).events[0]
  {
    FinishedScript(runId, workflowType, script);
    if trailing {
      TrailTasks(Build(Begin(runId, workflowType), script), Starts(script, false));
    }
  }

  lemma {:induction false} NoTaskYet(es: seq<Event>, k: nat)
    requires k <= |es| && TaskCount(es, k) == 0
    ensures LastTask(es, k) == 0
  {
    if k > 0 { NoTaskYet(es, k - 1); }
  }

  lemma {:induction false} ScriptHeader(b: Builder, script: seq<Op>)
    requires b.events != []
    ensures Build(b, script).events != [] && Build(b, script).events[0] == b.events[0]
  {
    if script != [] { ScriptHeader(b, script[..|script| - 1]); }
  }

  /** Any history whose tasks start at `starts` is cut at them. */
  lemma AcceptedAtStarts(es: seq<Event>, starts: seq<int>, k: nat)
    requires HasTasks(es, starts) && 1 <= k <= |starts|
    ensures k > 1 ==> starts[k - 2] < starts[k - 1]
    ensures Validate(es, Some(k)) ==
            Accept(es, if k == 1 then 0 else starts[k - 2], starts[k - 1], starts[k - 1], k)
  {
    var i := starts[k - 1] - 1;
    assert IsNthTask(es, k, i);
    CutAtNthTask(es, k, i);
    if k == 1 {
      NoTaskYet(es, i);
    } else {
      var h := starts[k - 2] - 1;
      assert IsNthTask(es, k - 1, h);
      if i < h { TaskCountMonotone(es, i + 1, h); }
      LastTaskIsPrevious(es, k - 1, h, i);
    }
  }

  /**
   Builder output is always accepted: for every task number k the script has, the validator keeps the
   events up to the k-th started id, counts k tasks and reports the started ids of tasks k and k - 1.
   */
  lemma ScriptsAreAccepted(runId: string, workflowType: string, script: seq<Op>, trailing: bool, k: nat)
    requires forall op :: op in script ==> ProperOp(op)
    requires 1 <= k <= |Starts(script, trailing)|
    ensures var es := Scripted(runId, workflowType, script, trailing).events;
            var starts := Starts(script, trailing);
            && (forall i :: 0 <= i < |es| ==> es[i].id == i + 1)
            && 0 < starts[k - 1] <= |es|
            && Validate(es, Some(k)) == Accepted(Info(
                 if k == 1 then 0 else starts[k - 2], starts[k - 1], es[..starts[k - 1]], k,
                 workflowType, ExecutionStarted(runId, Some(workflowType))))
  {
    ScriptedTasks(runId, workflowType, script, trailing);
    AcceptedAtStarts(Scripted(runId, workflowType, script, trailing).events, Starts(script, trailing), k);
  }

  lemma PageAtStarts(es: seq<Event>, starts: seq<int>, k: nat)
    requires HasTasks(es, starts) && 2 <= k <= |starts|
    ensures 0 < starts[k - 2] < starts[k - 1] <= |es|
    ensures Page(es[..starts[k - 1]]) == Some(es[starts[k - 2]..starts[k - 1]])
  {
    var h, i := starts[k - 2] - 1, starts[k - 1] - 1;
    assert IsNthTask(es, k - 1, h) && IsNthTask(es, k, i);
    if i < h { TaskCountMonotone(es, i + 1, h); }
    assert es[..|es|] == es;
    PrefixFollows(es, i + 1, |es|);
    ConsecutiveTasks(es, k - 1, h, i);
    PageIsSlice(es, h, i);
  }

  lemma OneWftAtStarts(es: seq<Event>, starts: seq<int>, k: nat)
    requires HasTasks(es, starts) && 2 <= k <= |starts|
    ensures 0 < starts[k - 2] < starts[k - 1] <= |es|
    ensures Validate(es, Some(k)).Accepted?
    ensures OneWft(es, k) == Delivered(Validate(es, Some(k)).info.(events := es[starts[k - 2]..starts[k - 1]]))
  {
    AcceptedAtStarts(es, starts, k);
    PageAtStarts(es, starts, k);
  }

  lemma PagesAtStarts(es: seq<Event>, starts: seq<int>, k: nat)
    requires HasTasks(es, starts) && 1 <= k <= |starts|
    ensures 0 < starts[k - 1] <= |es| && Pages(es, k) == Some(es[..starts[k - 1]])
  {
    var i := starts[k - 1] - 1;
    assert IsNthTask(es, k, i);
    PagesUpToLastTask(es, k, i);
  }

  /**
   One task as a sticky queue delivers it: from the completion of task k - 1 to the start of task k;
   and the pages of the script, laid end to end, are its history.
   */
  lemma OneWftOfScript(runId: string, workflowType: string, script: seq<Op>, trailing: bool, k: nat)
    requires forall op :: op in script ==> ProperOp(op)
    requires 2 <= k <= |Starts(script, trailing)|
    ensures var es := Scripted(runId, workflowType, script, trailing).events;
            var starts := Starts(script, trailing);
            && 0 < starts[k - 2] < starts[k - 1] <= |es|
            && OneWft(es, k) == Delivered(Info(
                 starts[k - 2], starts[k - 1], es[starts[k - 2]..starts[k - 1]], k,
                 workflowType, ExecutionStarted(runId, Some(workflowType))))
            && Pages(es, k) == Some(es[..starts[k - 1]])
  {
    var es := Scripted(runId, workflowType, script, trailing).events;
    ScriptedTasks(runId, workflowType, script, trailing);
    ScriptsAreAccepted(runId, workflowType, script, trailing, k);
    OneWftAtStarts(es, Starts(script, trailing), k);
    PagesAtStarts(es, Starts(script, trailing), k);
  }

  // ----- Task events refer to their own schedule -----

  /** A started or closing event names the scheduled event of its own task, one or two places before it. */
  predicate RefersToSchedule(es: seq<Event>, i: nat)
    requires i < |es|
  {
    var a := es[i].attributes;
    && (a.Some? && a.value.TaskStarted? ==>
          i >= 1 && es[i - 1].eventType.WorkflowTaskScheduled? && a.value.scheduledEventId == es[i - 1].id)
    && (a.Some? && a.value.TaskClosed? ==>
          i >= 2 && es[i - 2].eventType.WorkflowTaskScheduled? && a.value.scheduledEventId == es[i - 2].id)
  }

  ghost predicate AllRefer(es: seq<Event>) {
    forall i :: 0 <= i < |es| ==> RefersToSchedule(es, i)
  }

  lemma TrailRefers(b: Builder)
    requires AllRefer(b.events)
    ensures AllRefer(Trail(b).events)
    ensures var es := Trail(b).events;
            |es| == |b.events| + 2 && es[|b.events|].eventType.WorkflowTaskScheduled?
            && es[|b.events|].id == Trail(b).scheduledId
  {
    var es := Trail(b).events;
    forall i: nat | i < |es| ensures RefersToSchedule(es, i) {
      if i < |b.events| { assert RefersToSchedule(b.events, i); }
    }
  }

  lemma BlockRefers(b: Builder, op: Op)
    requires AllRefer(b.events) && ProperOp(op)
    ensures AllRefer(Block(b, op).events)
  {
    var p := if op.NonTask? then b else Trail(b);
    if !op.NonTask? { TrailRefers(b); }
    var es := Block(b, op).events;
    forall i: nat | i < |es| ensures RefersToSchedule(es, i) {
      if i < |p.events| { assert RefersToSchedule(p.events, i); }
    }
  }

  lemma {:induction false} ScriptRefers(b: Builder, script: seq<Op>)
    requires AllRefer(b.events) && forall op :: op in script ==> ProperOp(op)
    ensures AllRefer(Build(b, script).events)
  {
    if script != [] {
      ScriptRefers(b, script[..|script| - 1]);
      BlockRefers(Build(b, script[..|script| - 1]), script[|script| - 1]);
    }
  }

  /** In every scripted history each task event, a trailing one included, names the schedule of its own task. */
  lemma TaskEventsReferToTheirSchedule(runId: string, workflowType: string, script: seq<Op>, trailing: bool)
    requires forall op :: op in script ==> ProperOp(op)
    ensures AllRefer(Scripted(runId, workflowType, script, trailing).events)
  {
    var b := Begin(runId, workflowType);
    ScriptRefers(b, script);
    if trailing { TrailRefers(Build(b, script)); }
  }
}
