/** The parts of a workflow history event that the validator, the page cutter and the builder look at. */
module HistoryEvents {
  import opened Common

  /** Event types the modelled code tells apart; every other type is `OtherEvent`. */
  datatype EventType =
    | WorkflowExecutionStarted
    | WorkflowTaskScheduled
    | WorkflowTaskStarted
    | WorkflowTaskCompleted
    | WorkflowTaskFailed
    | WorkflowTaskTimedOut
    | WorkflowExecutionCompleted
    | WorkflowExecutionFailed
    | WorkflowExecutionTimedOut
    | WorkflowExecutionCanceled
    | WorkflowExecutionTerminated
    | WorkflowExecutionContinuedAsNew
    | OtherEvent(name: string)

  /** Attributes are a separate field of an event: nothing in a received history ties them to the type. */
  datatype Attributes =
    | ExecutionStarted(originalRunId: string, workflowType: Option<string>)
    | TaskStarted(scheduledEventId: int, historySizeBytes: int)
    | TaskClosed(scheduledEventId: int)
    | OtherAttributes

  datatype Event = Event(eventType: EventType, id: int, attributes: Option<Attributes>)

  /** `is_final_wf_execution_event`. */
  predicate IsFinal(e: Event) {
    || e.eventType.WorkflowExecutionCompleted?
    || e.eventType.WorkflowExecutionCanceled?
    || e.eventType.WorkflowExecutionFailed?
    || e.eventType.WorkflowExecutionTimedOut?
    || e.eventType.WorkflowExecutionContinuedAsNew?
    || e.eventType.WorkflowExecutionTerminated?
  }

  /** What may follow a started task without completing it. */
  predicate AbandonsTask(e: Event) {
    || e.eventType.WorkflowTaskFailed?
    || e.eventType.WorkflowTaskTimedOut?
    || e.eventType.WorkflowExecutionTerminated?
    || e.eventType.WorkflowExecutionTimedOut?
  }

  /** Ids are positive and strictly increasing, as the server assigns them. */
  ghost predicate IdsIncrease(es: seq<Event>) {
    && (forall i :: 0 <= i < |es| ==> 0 < es[i].id)
    && (forall i, j :: 0 <= i < j < |es| ==> es[i].id < es[j].id)
  }

  /** The six ways in which an execution ends. */
  lemma FinalTypes(e: Event)
    ensures IsFinal(e) <==>
            e.eventType in {WorkflowExecutionCompleted, WorkflowExecutionFailed, WorkflowExecutionTimedOut,
                            WorkflowExecutionCanceled, WorkflowExecutionTerminated,
                            WorkflowExecutionContinuedAsNew}
  {
  }

  /** The four ways in which a started workflow task is given up. */
  lemma AbandoningTypes(e: Event)
    ensures AbandonsTask(e) <==>
            e.eventType in {WorkflowTaskFailed, WorkflowTaskTimedOut,
                            WorkflowExecutionTerminated, WorkflowExecutionTimedOut}
  {
  }
}
