/**
 The workflow cache of the Rust worker: the poll loop inserts, the future joiner removes, both on one
 thread that switches only at await points. Each atomic stretch between two awaits is one step.
 */
module WorkflowCache {
  import opened Common

  type RunId = string
  type Generation = nat

  /** A spawned workflow future: `WorkflowFutureHandle`, with a number telling futures of one run apart. */
  datatype Handle = Handle(run: RunId, generation: Generation)

  /** What the poll loop looks at in an activation. */
  datatype Activation = Activation(run: RunId, initialize: Option<string>, onlyRemoveFromCache: bool)

  /** Where the poll loop stands; `Waiting` is the await on the removal notice, with the future it will cache. */
  datatype Poll =
    | Polling
    | Waiting(handle: Handle, notified: bool)
    | Stopped
    | Failed

  /** What the handler answers itself: an unknown workflow type, or the eviction of a run it does not have. */
  datatype Completion = TypeNotFound(run: RunId) | Evicted(run: RunId)

  datatype State = State(
    workflowTypes: set<string>,
    workflows: map<RunId, Generation>,   // the cache, by the future that feeds from the entry
    joining: set<Handle>,                // handed to the joiner and not yet removed from the cache
    permit: bool,                        // the permit a `Notify` stores when nobody waits
    poll: Poll,
    next: Generation,
    delivered: seq<Handle>,              // the future that each passed-on activation went to
    completions: seq<Completion>)        // completions sent by the handler itself

  function Initial(workflowTypes: set<string>): State {
    State(workflowTypes, map[], {}, false, Polling, 0, [], [])
  }

  // ----- The atomic stretches -----

  /** Insert and hand over, or await the next removal; a stored permit only buys one more look. */
  function InsertOrWait(s: State, h: Handle): State {
    if h.run in s.workflows then s.(permit := false, poll := Waiting(h, false))
    else
      s.(workflows := s.workflows[h.run := h.generation], joining := s.joining + {h}, poll := Polling,
         delivered := s.delivered + [h])
  }

  function Activate(s: State, a: Activation): State {
    if a.initialize.Some? then
      if a.initialize.value !in s.workflowTypes then s.(completions := s.completions + [TypeNotFound(a.run)])
      else InsertOrWait(s.(next := s.next + 1), Handle(a.run, s.next))
    else if a.run in s.workflows then s.(delivered := s.delivered + [Handle(a.run, s.workflows[a.run])])
    else if a.onlyRemoveFromCache then s.(completions := s.completions + [Evicted(a.run)])
    else s.(poll := Failed)
  }

  /** `notify_one`: wake the waiter, or store the permit. */
  function NotifyOne(s: State): State {
    if s.poll.Waiting? && !s.poll.notified then s.(poll := s.poll.(notified := true)) else s.(permit := true)
  }

  function Joined(s: State, h: Handle): State {
    NotifyOne(s.(workflows := s.workflows - {h.run}, joining := s.joining - {h}))
  }

  datatype Step =
    | Activated(a: Activation)      // the poll returned an activation
    | Woken                         // the waiting poll loop runs again
    | FutureJoined(h: Handle)       // a workflow future finished
    | FutureFailed(h: Handle)       // a workflow future failed, which ends the whole worker
    | PollShutDown
    | PollFailed

  predicate Enabled(s: State, step: Step) {
    match step
    case Activated(_) => s.poll.Polling?
    case Woken => s.poll.Waiting? && s.poll.notified
    case FutureJoined(h) => h in s.joining && !s.poll.Failed?
    case FutureFailed(h) => h in s.joining && !s.poll.Failed?
    case PollShutDown => s.poll.Polling?
    case PollFailed => s.poll.Polling?
  }

  function Do(s: State, step: Step): State
    requires Enabled(s, step)
  {
    match step
    case Activated(a) => Activate(s, a)
    case Woken => InsertOrWait(s, s.poll.handle)
    case FutureJoined(h) => Joined(s, h)
    case FutureFailed(_) => s.(poll := Failed)
    case PollShutDown => s.(poll := Stopped)
    case PollFailed => s.(poll := Failed)
  }

  /** The cache object; its methods are the stretches that touch it. */
  class WorkflowHalf {
    const workflowTypes: set<string>
    var workflows: map<RunId, Generation>
    var joining: set<Handle>
    var permit: bool
    var poll: Poll
    var next: Generation
    var delivered: seq<Handle>
    var completions: seq<Completion>

    ghost function Value(): State
      reads this
    {
      State(workflowTypes, workflows, joining, permit, poll, next, delivered, completions)
    }

    constructor (workflowTypes: set<string>)
      ensures Value() == Initial(workflowTypes)
    {
      this.workflowTypes := workflowTypes;
      workflows, joining, permit, poll, next, delivered, completions := map[], {}, false, Polling, 0, [], [];
    }

    /** From the start of `workflow_activation_handler` to its return or its first await. */
    method HandleActivation(a: Activation)
      requires Enabled(Value(), Activated(a))
      modifies this
      ensures Value() == Activate(old(Value()), a)
    {
      if a.initialize.Some? {
        if a.initialize.value !in workflowTypes {
          completions := completions + [TypeNotFound(a.run)];
          return;
        }
        var h := Handle(a.run, next);
        next := next + 1;
        TryInsert(h);
      } else if a.run in workflows {
        delivered := delivered + [Handle(a.run, workflows[a.run])];
      } else if a.onlyRemoveFromCache {
        completions := completions + [Evicted(a.run)];
      } else {
        poll := Failed;
      }
    }

    /** The loop around `contains_key`, up to the insert or the await. */
    method TryInsert(h: Handle)
      modifies this
      ensures Value() == InsertOrWait(old(Value()), h)
    {
      if h.run in workflows {
        permit := false;
        poll := Waiting(h, false);
      } else {
        workflows := workflows[h.run := h.generation];
        joining := joining + {h};
        poll := Polling;
        delivered := delivered + [h];
      }
    }

    /** The body of the future joiner behind `join_handle.await`. */
    method RemoveJoined(h: Handle)
      requires Enabled(Value(), FutureJoined(h))
      modifies this
      ensures Value() == Joined(old(Value()), h)
    {
      workflows := workflows - {h.run};
      joining := joining - {h};
      if poll.Waiting? && !poll.notified { poll := poll.(notified := true); } else { permit := true; }
    }
  }

  // ----- Runs -----

  predicate Legal(s: State, run: seq<Step>)
    decreases |run|
  {
    run == [] || (Enabled(s, run[0]) && Legal(Do(s, run[0]), run[1..]))
  }

  function After(s: State, run: seq<Step>): State
    requires Legal(s, run)
    decreases |run|
  {
    if run == [] then s else After(Do(s, run[0]), run[1..])
  }

  /** The cache holds exactly the futures given to the joiner and not yet removed, one per run. */
  ghost predicate CacheMatchesFutures(s: State) {
    forall h :: h in s.joining <==> h.run in s.workflows && s.workflows[h.run] == h.generation
  }

  /** A future waiting to be cached is a new one, and an unanswered wait is for an entry that is still there. */
  ghost predicate WaitIsJustified(s: State) {
    && (forall h :: h in s.joining ==> h.generation < s.next)
    && (s.poll.Waiting? ==>
          && s.poll.handle.generation < s.next
          && (forall h :: h in s.joining ==> h.generation != s.poll.handle.generation)
          && (!s.poll.notified ==> s.poll.handle.run in s.workflows && !s.permit))
  }

  ghost predicate Agrees(s: State) {
    CacheMatchesFutures(s) && WaitIsJustified(s)
  }

  lemma AgreesStep(s: State, step: Step)
    requires Agrees(s) && Enabled(s, step)
    ensures Agrees(Do(s, step))
  {
  }

  /** Cache and futures agree at every await point of every run. */
  lemma {:induction false} CacheAndFuturesAgree(s: State, run: seq<Step>)
    requires Agrees(s) && Legal(s, run)
    ensures Agrees(After(s, run))
    decreases |run|
  {
    if run != [] {
      AgreesStep(s, run[0]);
      CacheAndFuturesAgree(Do(s, run[0]), run[1..]);
    }
  }

  /** No two live futures share a run, and there are as many futures as cached workflows. */
  lemma {:induction false} OneFuturePerRun(workflowTypes: set<string>, run: seq<Step>)
    requires Legal(Initial(workflowTypes), run)
    ensures var s := After(Initial(workflowTypes), run);
            && (forall g, h :: g in s.joining && h in s.joining && g.run == h.run ==> g == h)
            && |s.joining| == |s.workflows|
  {
    CacheAndFuturesAgree(Initial(workflowTypes), run);
    var s := After(Initial(workflowTypes), run);
    SameSize(s.joining, s.workflows);
  }

  lemma {:induction false} SameSize(hs: set<Handle>, m: map<RunId, Generation>)
    requires forall h :: h in hs <==> h.run in m && m[h.run] == h.generation
    ensures |hs| == |m|
    decreases hs
  {
    assert forall r :: r in m ==> Handle(r, m[r]) in hs;
    if hs == {} {
      assert m == map[];
    } else {
      var h :| h in hs;
      var m' := m - {h.run};
      assert m'.Keys == m.Keys - {h.run};
      SameSize(hs - {h}, m');
    }
  }

  /** An entry changes only by being removed: an insert never overwrites one, a removal hits its own future's. */
  lemma EntriesAreNeverOverwritten(s: State, step: Step)
    requires Agrees(s) && Enabled(s, step)
    ensures forall r :: r in s.workflows && r in Do(s, step).workflows ==>
                          s.workflows[r] == Do(s, step).workflows[r]
    ensures forall r :: r in s.workflows && r !in Do(s, step).workflows ==>
                          step == FutureJoined(Handle(r, s.workflows[r]))
    ensures step.FutureJoined? ==> step.h.run in s.workflows && s.workflows[step.h.run] == step.h.generation
  {
  }

  // ----- Every activation is answered once -----

  /** Activations passed on, answered by the handler itself, or held by the waiting poll loop. */
  function Answered(s: State): nat {
    |s.delivered| + |s.completions| + if s.poll.Waiting? then 1 else 0
  }

  function Activations(run: seq<Step>): nat {
    if run == [] then 0 else (if run[0].Activated? then 1 else 0) + Activations(run[1..])
  }

  /** Over every run no activation is lost and none is answered twice, short of a failure that ends the worker. */
  lemma {:induction false} ActivationsAreConserved(s: State, run: seq<Step>)
    requires Legal(s, run)
    ensures After(s, run).poll.Failed? || Answered(After(s, run)) == Answered(s) + Activations(run)
    decreases |run|
  {
    if run != [] {
      if Do(s, run[0]).poll.Failed? {
        FailureLasts(Do(s, run[0]), run[1..]);
      } else {
        ActivationsAreConserved(Do(s, run[0]), run[1..]);
      }
    }
  }

  /** An activation passed on goes to a future of its run that is cached and not yet joined. */
  lemma DeliveredToLiveFuture(s: State, step: Step)
    requires Agrees(s) && Enabled(s, step)
    ensures var t := Do(s, step);
            || t.delivered == s.delivered
            || exists h :: t.delivered == s.delivered + [h] && h in t.joining
                           && (step.Activated? ==> h.run == step.a.run)
                           && (step.Woken? ==> h == s.poll.handle)
  {
    if step.Activated? && step.a.initialize.None? && step.a.run in s.workflows {
      var h := Handle(step.a.run, s.workflows[step.a.run]);
      assert Do(s, step).delivered == s.delivered + [h];
    }
  }

  // ----- Which starts are cached, and which activations are answered how -----

  /** A start of a type that this worker has, or has not. */
  predicate IsStart(step: Step, types: set<string>, known: bool) {
    step.Activated? && step.a.initialize.Some? && (step.a.initialize.value in types) == known
  }

  /** The runs of such starts, in order. */
  function StartsOf(types: set<string>, known: bool, run: seq<Step>): seq<RunId> {
    if run == [] then []
    else (if IsStart(run[0], types, known) then [run[0].a.run] else []) + StartsOf(types, known, run[1..])
  }

  function UnknownTypes(cs: seq<Completion>): seq<RunId> {
    if cs == [] then []
    else (if cs[0].TypeNotFound? then [cs[0].run] else []) + UnknownTypes(cs[1..])
  }

  lemma {:induction false} UnknownTypesConcat(cs: seq<Completion>, ds: seq<Completion>)
    ensures UnknownTypes(cs + ds) == UnknownTypes(cs) + UnknownTypes(ds)
  {
    if cs == [] {
      assert cs + ds == ds;
    } else {
      assert (cs + ds)[1..] == cs[1..] + ds;
      UnknownTypesConcat(cs[1..], ds);
    }
  }

  /** An activation that only evicts a run which is not cached at that moment. */
  predicate EvictsNothing(s: State, step: Step) {
    step.Activated? && step.a.initialize.None? && step.a.onlyRemoveFromCache && step.a.run !in s.workflows
  }

  /** The completion that a step calls for, if any, from the types and the cache at that moment. */
  function CompletionDue(s: State, step: Step): seq<Completion> {
    if IsStart(step, s.workflowTypes, false) then [TypeNotFound(step.a.run)]
    else if EvictsNothing(s, step) then [Evicted(step.a.run)]
    else []
  }

  function CompletionsDue(s: State, run: seq<Step>): seq<Completion>
    requires Legal(s, run)
    decreases |run|
  {
    if run == [] then [] else CompletionDue(s, run[0]) + CompletionsDue(Do(s, run[0]), run[1..])
  }

  lemma CompletionStep(s: State, step: Step)
    requires Enabled(s, step)
    ensures Do(s, step).completions == s.completions + CompletionDue(s, step)
    ensures Do(s, step).workflowTypes == s.workflowTypes
  {
  }

  /** Over every run the handler's own completions are exactly those, in order. */
  lemma {:induction false} CompletionsAreExact(s: State, run: seq<Step>)
    requires Legal(s, run)
    ensures After(s, run).completions == s.completions + CompletionsDue(s, run)
    decreases |run|
  {
    if run != [] {
      CompletionStep(s, run[0]);
      CompletionsAreExact(Do(s, run[0]), run[1..]);
    }
  }

  lemma UnknownDue(s: State, step: Step)
    ensures UnknownTypes(CompletionDue(s, step)) ==
            if IsStart(step, s.workflowTypes, false) then [step.a.run] else []
  {
    var due := CompletionDue(s, step);
    if due != [] { assert due[1..] == []; }
  }

  lemma {:induction false} UnknownDueOverRun(s: State, run: seq<Step>)
    requires Legal(s, run)
    ensures UnknownTypes(CompletionsDue(s, run)) == StartsOf(s.workflowTypes, false, run)
    decreases |run|
  {
    if run != [] {
      CompletionStep(s, run[0]);
      UnknownDueOverRun(Do(s, run[0]), run[1..]);
      UnknownDue(s, run[0]);
      UnknownTypesConcat(CompletionDue(s, run[0]), CompletionsDue(Do(s, run[0]), run[1..]));
    }
  }

  /** In particular those for unknown types are, in order, the runs of the starts of types the worker has not. */
  lemma UnknownTypesAreExact(types: set<string>, run: seq<Step>)
    requires Legal(Initial(types), run)
    ensures UnknownTypes(After(Initial(types), run).completions) == StartsOf(types, false, run)
  {
    var due := CompletionsDue(Initial(types), run);
    CompletionsAreExact(Initial(types), run);
    assert [] + due == due;
    UnknownDueOverRun(Initial(types), run);
  }

  /** The future that a step passes an activation to, if any, from the types and the cache at that moment. */
  function DeliveryDue(s: State, step: Step): seq<Handle>
    requires Enabled(s, step)
  {
    match step
    case Activated(a) =>
      if a.initialize.Some? then
        if a.initialize.value in s.workflowTypes && a.run !in s.workflows then [Handle(a.run, s.next)] else []
      else if a.run in s.workflows then [Handle(a.run, s.workflows[a.run])]
      else []
    case Woken => if s.poll.handle.run in s.workflows then [] else [s.poll.handle]
    case _ => []
  }

  function DeliveriesDue(s: State, run: seq<Step>): seq<Handle>
    requires Legal(s, run)
    decreases |run|
  {
    if run == [] then [] else DeliveryDue(s, run[0]) + DeliveriesDue(Do(s, run[0]), run[1..])
  }

  lemma DeliveryStep(s: State, step: Step)
    requires Enabled(s, step)
    ensures Do(s, step).delivered == s.delivered + DeliveryDue(s, step)
  {
  }

  /** Over every run the activations passed on went exactly to those futures, in order. */
  lemma {:induction false} DeliveriesAreExact(s: State, run: seq<Step>)
    requires Legal(s, run)
    ensures After(s, run).delivered == s.delivered + DeliveriesDue(s, run)
    decreases |run|
  {
    if run != [] {
      DeliveryStep(s, run[0]);
      DeliveriesAreExact(Do(s, run[0]), run[1..]);
    }
  }

  /** Every future is numbered after the start it came from: a start of a type that the worker has. */
  ghost predicate FromStart(h: Handle, starts: seq<RunId>) {
    h.generation < |starts| && starts[h.generation] == h.run
  }

  ghost predicate FuturesComeFromStarts(s: State, starts: seq<RunId>) {
    && s.next == |starts|
    && (forall h :: h in s.joining ==> FromStart(h, starts))
    && (forall h :: h in s.delivered ==> FromStart(h, starts))
    && (s.poll.Waiting? ==> FromStart(s.poll.handle, starts))
  }

  lemma StartStep(s: State, starts: seq<RunId>, step: Step)
    requires Agrees(s) && FuturesComeFromStarts(s, starts) && Enabled(s, step)
    ensures FuturesComeFromStarts(
              Do(s, step), starts + if IsStart(step, s.workflowTypes, true) then [step.a.run] else [])
    ensures Do(s, step).workflowTypes == s.workflowTypes
  {
    var more := starts + if IsStart(step, s.workflowTypes, true) then [step.a.run] else [];
    forall h | FromStart(h, starts) ensures FromStart(h, more) {}
    if step.Activated? && step.a.initialize.None? && step.a.run in s.workflows {
      assert Handle(step.a.run, s.workflows[step.a.run]) in s.joining;
    }
  }

  lemma {:induction false} StartsRun(s: State, starts: seq<RunId>, run: seq<Step>)
    requires Agrees(s) && FuturesComeFromStarts(s, starts) && Legal(s, run)
    ensures FuturesComeFromStarts(After(s, run), starts + StartsOf(s.workflowTypes, true, run))
    decreases |run|
  {
    if run == [] {
      assert starts + [] == starts;
    } else {
      var more := if IsStart(run[0], s.workflowTypes, true) then [run[0].a.run] else [];
      StartStep(s, starts, run[0]);
      AgreesStep(s, run[0]);
      StartsRun(Do(s, run[0]), starts + more, run[1..]);
      assert starts + more + StartsOf(s.workflowTypes, true, run[1..]) ==
             starts + (more + StartsOf(s.workflowTypes, true, run[1..]));
    }
  }

  /**
   Over every run from the beginning, the futures ever created, cached, waiting or passed an activation
   are those of the starts of types the worker has: the n-th such start makes the n-th future.
   */
  lemma OnlyKnownTypesRun(types: set<string>, run: seq<Step>)
    requires Legal(Initial(types), run)
    ensures FuturesComeFromStarts(After(Initial(types), run), StartsOf(types, true, run))
  {
    StartsRun(Initial(types), [], run);
    assert [] + StartsOf(types, true, run) == StartsOf(types, true, run);
  }

  /** A start of a type the worker has: cached and delivered to if its run is not cached, else waiting to be. */
  lemma KnownStartIsCached(s: State, a: Activation)
    requires Enabled(s, Activated(a)) && a.initialize.Some? && a.initialize.value in s.workflowTypes
    ensures var t, h := Do(s, Activated(a)), Handle(a.run, s.next);
            if a.run !in s.workflows then
              && t.workflows == s.workflows[a.run := s.next] && t.joining == s.joining + {h}
              && t.delivered == s.delivered + [h] && t.poll.Polling?
            else
              t.poll == Waiting(h, false) && t.workflows == s.workflows && t.delivered == s.delivered
  {
  }

  /** What makes the poll loop fail: its own error, a failed future, or work for a run it does not have. */
  lemma FailsExactly(s: State, step: Step)
    requires Enabled(s, step) && !s.poll.Failed?
    ensures Do(s, step).poll.Failed? <==>
            || step.PollFailed? || step.FutureFailed?
            || (step.Activated? && step.a.initialize.None? && !step.a.onlyRemoveFromCache
                && step.a.run !in s.workflows)
    ensures Do(s, step).poll.Stopped? <==> (s.poll.Stopped? && !step.FutureFailed?) || step.PollShutDown?
  {
  }

  // ----- The wake-up is never missed -----

  /** While the poll loop waits, something can always move it: a future of that run, or its own wake-up. */
  lemma WaitCanEnd(s: State)
    requires Agrees(s) && s.poll.Waiting?
    ensures Enabled(s, Woken) || exists h: Handle :: h.run == s.poll.handle.run && Enabled(s, FutureJoined(h))
  {
    if !s.poll.notified {
      var h := Handle(s.poll.handle.run, s.workflows[s.poll.handle.run]);
      assert Enabled(s, FutureJoined(h));
    }
  }

  /** The wait for the run is over: the next wake-up will find its entry gone. */
  ghost predicate Released(s: State, h: Handle) {
    s.poll == Waiting(h, true) && h.run !in s.workflows
  }

  /** Joining the future that blocks the wait releases it, whether or not the loop was woken for another run before. */
  lemma JoinReleases(s: State, blocking: Handle)
    requires Agrees(s) && s.poll.Waiting? && blocking in s.joining && blocking.run == s.poll.handle.run
    ensures Released(Do(s, FutureJoined(blocking)), s.poll.handle)
  {
  }

  /** A join wakes a waiting loop that was not woken yet, and otherwise leaves a permit for the next wait. */
  lemma JoinNotifies(s: State, h: Handle)
    requires Enabled(s, FutureJoined(h))
    ensures var t := Do(s, FutureJoined(h));
            && t.workflows.Keys == s.workflows.Keys - {h.run} && t.joining == s.joining - {h}
            && if s.poll.Waiting? && !s.poll.notified then
                 t.poll == Waiting(s.poll.handle, true) && t.permit == s.permit
               else
                 t.poll == s.poll && t.permit
  {
  }

  /** Nothing but the wake-up or a failure of the worker ends a released wait. */
  lemma {:induction false} ReleaseLasts(s: State, h: Handle, run: seq<Step>)
    requires Agrees(s) && Released(s, h) && Legal(s, run) && Woken !in run
    ensures Released(After(s, run), h) || After(s, run).poll.Failed?
    decreases |run|
  {
    if run != [] {
      AgreesStep(s, run[0]);
      if run[0].FutureFailed? {
        FailureLasts(Do(s, run[0]), run[1..]);
      } else {
        ReleaseLasts(Do(s, run[0]), h, run[1..]);
      }
    }
  }

  lemma FailureLasts(s: State, run: seq<Step>)
    requires s.poll.Failed? && Legal(s, run)
    ensures run == [] && After(s, run) == s
  {
  }

  /**
   A wait for removal never misses its wake-up: whatever happens between the removal and the moment the
   poll loop runs again, it then caches exactly the future it was waiting to cache.
   */
  lemma WaitIsServed(s: State, blocking: Handle, between: seq<Step>)
    requires Agrees(s) && s.poll.Waiting? && blocking in s.joining && blocking.run == s.poll.handle.run
    requires Legal(Do(s, FutureJoined(blocking)), between) && Woken !in between
    requires Enabled(After(Do(s, FutureJoined(blocking)), between), Woken)
    ensures var h := s.poll.handle;
            var t := Do(After(Do(s, FutureJoined(blocking)), between), Woken);
            h in t.joining && h.run in t.workflows && t.workflows[h.run] == h.generation && t.poll.Polling?
  {
    AgreesStep(s, FutureJoined(blocking));
    JoinReleases(s, blocking);
    ReleaseLasts(Do(s, FutureJoined(blocking)), s.poll.handle, between);
  }
}
