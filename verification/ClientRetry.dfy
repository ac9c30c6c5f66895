/**
 The gRPC retry handler: a state machine over the errors of one call and a clock. The exponential
 backoff behind it is abstract: it answers a wait, or nothing, and nothing only when a maximum elapsed
 time is configured. Times are in milliseconds.
 */
module ClientRetry {
  import opened Common

  datatype Code =
    | Ok | Cancelled | Unknown | InvalidArgument | DeadlineExceeded | NotFound | AlreadyExists
    | PermissionDenied | ResourceExhausted | FailedPrecondition | Aborted | OutOfRange | Unimplemented
    | Internal | Unavailable | DataLoss | Unauthenticated

  /** `goAway`: the source chain ends in a hyper error that says the connection was closed. */
  datatype Status = Status(code: Code, message: string, goAway: bool, markedTooLarge: bool)

  const RETRYABLE_ERROR_CODES :=
    {DataLoss, Internal, Unknown, ResourceExhausted, Aborted, OutOfRange, Unavailable}

  const LONG_POLL_FATAL_GRACE := 60_000

  datatype CallType = Normal | UserLongPoll | TaskLongPoll

  datatype RetryConfig = RetryConfig(
    initialInterval: nat,
    randomizationFactor: real,
    multiplier: real,
    maxInterval: nat,
    maxElapsedTime: Option<nat>,
    maxRetries: nat)

  const TASK_POLL_RETRY_POLICY := RetryConfig(200, 0.2, 2.0, 10_000, None, 0)
  const THROTTLE_RETRY_POLICY := RetryConfig(1_000, 0.2, 2.0, 10_000, None, 0)

  /** What the handler relies on in a backoff; `advances` counts the schedule's steps. */
  datatype Backoff = Backoff(config: RetryConfig, start: int, advances: nat)

  function IntoExpBackoff(config: RetryConfig, start: int): Backoff {
    Backoff(config, start, 0)
  }

  function Elapsed(b: Backoff, now: int): nat {
    if now < b.start then 0 else now - b.start
  }

  /** The moment an error is handled, and what the two backoffs answer if asked then. */
  datatype Answers = Answers(now: int, next: Option<nat>, throttle: Option<nat>)

  type Predicate = Status -> bool

  /** Request extensions as far as retrying looks at them. */
  datatype Extensions = Extensions(userLongPoll: bool, workerTaskLongPoll: bool, noRetryOn: Option<Predicate>)

  datatype CallInfo = CallInfo(callType: CallType, config: RetryConfig, shortCircuit: Option<Predicate>)

  function GetCallInfo(clientConfig: RetryConfig, request: Option<Extensions>): CallInfo {
    var callType :=
      if request.None? then Normal
      else if request.value.userLongPoll then UserLongPoll
      else if request.value.workerTaskLongPoll then TaskLongPoll
      else Normal;
    CallInfo(callType,
             if callType == TaskLongPoll then TASK_POLL_RETRY_POLICY else clientConfig,
             if request.None? then None else request.value.noRetryOn)
  }

  datatype Handler = Handler(
    backoff: Backoff,
    throttle: Backoff,
    maxRetries: nat,
    callType: CallType,
    retriedGoAway: bool,
    shortCircuit: Option<Predicate>)

  function NewHandler(info: CallInfo, throttleConfig: RetryConfig, start: int, throttleStart: int): Handler {
    Handler(IntoExpBackoff(info.config, start), IntoExpBackoff(throttleConfig, throttleStart),
            info.config.maxRetries, info.callType, false, info.shortCircuit)
  }

  datatype Policy = ForwardError(e: Status) | WaitRetry(wait: nat)

  // ----- The decision, clause by clause -----

  predicate OutOfAttempts(h: Handler, attempt: nat) {
    h.maxRetries > 0 && attempt >= h.maxRetries
  }

  predicate ShortCircuited(h: Handler, e: Status) {
    h.shortCircuit.Some? && h.shortCircuit.value(e)
  }

  const TOO_LARGE_MESSAGES: seq<string> := [
    "grpc: received message larger than max",
    "grpc: message after decompression larger than max",
    "grpc: received message after decompression larger than max"]

  predicate TooLarge(e: Status) {
    e.code == ResourceExhausted && exists i :: 0 <= i < |TOO_LARGE_MESSAGES| && TOO_LARGE_MESSAGES[i] <= e.message
  }

  predicate LongPollAllowed(h: Handler, e: Status) {
    h.callType == TaskLongPoll && (e.code == Cancelled || e.code == DeadlineExceeded)
  }

  predicate GoAwayAllowed(h: Handler, e: Status) {
    !h.retriedGoAway && e.code == Cancelled && e.goAway
  }

  predicate Retryable(h: Handler, e: Status) {
    e.code in RETRYABLE_ERROR_CODES || LongPollAllowed(h, e) || GoAwayAllowed(h, e)
  }

  function Advance(b: Backoff): Backoff {
    b.(advances := b.advances + 1)
  }

  function Max(a: nat, b: nat): nat {
    if a < b then b else a
  }

  /** The retryable case: ask the backoff, and for an exhausted resource the throttle too. */
  function BackOff(h: Handler, e: Status, a: Answers): (Handler, Policy) {
    var g := h.(backoff := Advance(h.backoff));
    if a.next.None? then (g, ForwardError(e))
    else if e.code == ResourceExhausted then
      (g.(throttle := Advance(g.throttle)),
       WaitRetry(Max(a.next.value, if a.throttle.Some? then a.throttle.value else 0)))
    else (g, WaitRetry(a.next.value))
  }

  /** `TonicErrorHandler::handle`. */
  function Handle(h: Handler, attempt: nat, e: Status, a: Answers): (Handler, Policy) {
    if OutOfAttempts(h, attempt) || ShortCircuited(h, e) then (h, ForwardError(e))
    else if TooLarge(e) then (h, ForwardError(e.(markedTooLarge := true)))
    else
      var g := h.(retriedGoAway := h.retriedGoAway || GoAwayAllowed(h, e));
      if Retryable(h, e) then BackOff(g, e, a)
      else if h.callType == TaskLongPoll && Elapsed(h.backoff, a.now) <= LONG_POLL_FATAL_GRACE then
        (g, WaitRetry(h.backoff.config.maxInterval))
      else (g, ForwardError(e))
  }

  class TonicErrorHandler {
    var backoff: Backoff
    var throttle: Backoff
    var retriedGoAway: bool
    const maxRetries: nat
    const callType: CallType
    const shortCircuit: Option<Predicate>

    ghost function State(): Handler
      reads this
    {
      Handler(backoff, throttle, maxRetries, callType, retriedGoAway, shortCircuit)
    }

    constructor (info: CallInfo, throttleConfig: RetryConfig, start: int, throttleStart: int)
      ensures State() == NewHandler(info, throttleConfig, start, throttleStart)
    {
      backoff, throttle := IntoExpBackoff(info.config, start), IntoExpBackoff(throttleConfig, throttleStart);
      retriedGoAway, maxRetries, callType := false, info.config.maxRetries, info.callType;
      shortCircuit := info.shortCircuit;
    }

    method AskBackoff(e: Status, a: Answers) returns (p: Policy)
      modifies this
      ensures State() == BackOff(old(State()), e, a).0
      ensures p == BackOff(old(State()), e, a).1
    {
      backoff := Advance(backoff);
      if a.next.None? { return ForwardError(e); }
      if e.code == ResourceExhausted {
        throttle := Advance(throttle);
        return WaitRetry(Max(a.next.value, if a.throttle.Some? then a.throttle.value else 0));
      }
      return WaitRetry(a.next.value);
    }

    method HandleError(attempt: nat, e: Status, a: Answers) returns (p: Policy)
      modifies this
      ensures State() == Handle(old(State()), attempt, e, a).0
      ensures p == Handle(old(State()), attempt, e, a).1
    {
      if maxRetries > 0 && attempt >= maxRetries { return ForwardError(e); }
      if shortCircuit.Some? && shortCircuit.value(e) { return ForwardError(e); }
      if TooLarge(e) { return ForwardError(e.(markedTooLarge := true)); }
      var longPollAllowed := callType == TaskLongPoll && (e.code == Cancelled || e.code == DeadlineExceeded);
      var goAwayRetryAllowed := false;
      if !retriedGoAway && e.code == Cancelled && e.goAway {
        goAwayRetryAllowed := true;
        retriedGoAway := true;
      }
      if e.code in RETRYABLE_ERROR_CODES || longPollAllowed || goAwayRetryAllowed {
        p := AskBackoff(e, a);
        return;
      } else if callType == TaskLongPoll && Elapsed(backoff, a.now) <= LONG_POLL_FATAL_GRACE {
        return WaitRetry(backoff.config.maxInterval);
      }
      return ForwardError(e);
    }
  }

  // ----- The same in the words of the documentation -----

  /** The seven codes that the client retries. */
  predicate IsRetryableCode(code: Code) {
    || code.DataLoss? || code.Internal? || code.Unknown? || code.ResourceExhausted?
    || code.Aborted? || code.OutOfRange? || code.Unavailable?
  }

  /** The three ways in which a peer says that a message was too large. */
  predicate SaysTooLarge(e: Status) {
    && e.code.ResourceExhausted?
    && (|| "grpc: received message larger than max" <= e.message
        || "grpc: message after decompression larger than max" <= e.message
        || "grpc: received message after decompression larger than max" <= e.message)
  }

  lemma RetryableCodes(code: Code)
    ensures code in RETRYABLE_ERROR_CODES <==> IsRetryableCode(code)
  {
  }

  lemma TooLargeIsSaid(e: Status)
    ensures TooLarge(e) <==> SaysTooLarge(e)
  {
    if SaysTooLarge(e) {
      var m := TOO_LARGE_MESSAGES;
      assert m[0] <= e.message || m[1] <= e.message || m[2] <= e.message;
    }
  }

  /** The request's own filter on errors says not to retry this one. */
  predicate Vetoed(veto: Option<Predicate>, e: Status) {
    veto.Some? && veto.value(e)
  }

  /** How the handler of a request is set up, field by field. */
  lemma HandlerOfRequest(clientConfig: RetryConfig, request: Option<Extensions>, start: int, throttleStart: int)
    ensures var h := NewHandler(GetCallInfo(clientConfig, request), THROTTLE_RETRY_POLICY, start, throttleStart);
            var isPoll := request.Some? && request.value.workerTaskLongPoll && !request.value.userLongPoll;
            && (h.callType.TaskLongPoll? <==> isPoll)
            && (h.callType.UserLongPoll? <==> request.Some? && request.value.userLongPoll)
            && h.backoff == Backoff(if isPoll then RetryConfig(200, 0.2, 2.0, 10_000, None, 0) else clientConfig,
                                    start, 0)
            && h.throttle == Backoff(RetryConfig(1_000, 0.2, 2.0, 10_000, None, 0), throttleStart, 0)
            && h.maxRetries == (if isPoll then 0 else clientConfig.maxRetries)
            && !h.retriedGoAway
            && (request.None? ==> h.shortCircuit.None?)
            && (request.Some? ==> h.shortCircuit == request.value.noRetryOn)
  {
  }

  // ----- One call: its errors in order, attempts numbered from 1 -----

  datatype Failure = Failure(e: Status, a: Answers)

  function After(h: Handler, fs: seq<Failure>): Handler {
    if fs == [] then h
    else
      var k := |fs| - 1;
      Handle(After(h, fs[..k]), k + 1, fs[k].e, fs[k].a).0
  }

  /** The answer to the error at position `i`. */
  function PolicyAt(h: Handler, fs: seq<Failure>, i: nat): Policy
    requires i < |fs|
  {
    Handle(After(h, fs[..i]), i + 1, fs[i].e, fs[i].a).1
  }

  lemma AfterStep(h: Handler, fs: seq<Failure>, k: nat)
    requires 0 < k <= |fs|
    ensures After(h, fs[..k]) == Handle(After(h, fs[..k - 1]), k, fs[k - 1].e, fs[k - 1].a).0
  {
    assert fs[..k][..k - 1] == fs[..k - 1];
  }

  /** The call goes on only while every error is answered by a wait. */
  ghost predicate IsCall(h: Handler, fs: seq<Failure>) {
    forall i :: 0 <= i < |fs| - 1 ==> PolicyAt(h, fs, i).WaitRetry?
  }

  /** The contract of the external backoff. */
  ghost predicate Honest(h: Handler, fs: seq<Failure>) {
    h.backoff.config.maxElapsedTime.None? ==> forall i :: 0 <= i < |fs| ==> fs[i].a.next.Some?
  }

  /** The next error comes no earlier than the wait it was told. */
  ghost predicate ClockRespectsWaits(h: Handler, fs: seq<Failure>) {
    && (fs != [] ==> h.backoff.start <= fs[0].a.now)
    && (forall i :: 0 <= i < |fs| - 1 && PolicyAt(h, fs, i).WaitRetry? ==>
                      fs[i].a.now + PolicyAt(h, fs, i).wait <= fs[i + 1].a.now)
  }

  /** What no error of a call ever changes. */
  ghost predicate SameSetup(h: Handler, g: Handler) {
    && g.maxRetries == h.maxRetries && g.callType == h.callType && g.shortCircuit == h.shortCircuit
    && g.backoff.config == h.backoff.config && g.backoff.start == h.backoff.start
    && (h.retriedGoAway ==> g.retriedGoAway)
  }

  lemma {:induction false} SetupStays(h: Handler, fs: seq<Failure>)
    ensures SameSetup(h, After(h, fs))
  {
    if fs != [] { SetupStays(h, fs[..|fs| - 1]); }
  }

  lemma {:induction false} GoAwayStays(h: Handler, fs: seq<Failure>, i: nat)
    requires i <= |fs| && After(h, fs[..i]).retriedGoAway
    ensures After(h, fs).retriedGoAway
    decreases |fs| - i
  {
    if i < |fs| {
      assert fs[..i + 1][..i] == fs[..i];
      GoAwayStays(h, fs, i + 1);
    } else {
      assert fs[..i] == fs;
    }
  }

  // ----- Bounded attempts -----

  lemma LastAttemptForwards(h: Handler, fs: seq<Failure>, i: nat)
    requires i < |fs| && h.maxRetries > 0 && i + 1 >= h.maxRetries
    ensures PolicyAt(h, fs, i).ForwardError?
  {
    SetupStays(h, fs[..i]);
  }

  /** With M > 0 retries configured a call is attempted at most M times. */
  lemma AttemptsAreBounded(h: Handler, fs: seq<Failure>)
    requires h.maxRetries > 0 && IsCall(h, fs)
    ensures |fs| <= h.maxRetries
  {
    if |fs| > h.maxRetries { LastAttemptForwards(h, fs, h.maxRetries - 1); }
  }

  /** Outside task polls at most one cancelled error of a call is retried. */
  lemma OneCancelledRetry(h: Handler, fs: seq<Failure>, i: nat, j: nat)
    requires h.callType != TaskLongPoll && i < j < |fs|
    requires fs[i].e.code == Cancelled && PolicyAt(h, fs, i).WaitRetry?
    requires fs[j].e.code == Cancelled
    ensures PolicyAt(h, fs, j).ForwardError?
  {
    SetupStays(h, fs[..i]);
    SetupStays(h, fs[..j]);
    assert fs[..i + 1][..i] == fs[..i];
    assert After(h, fs[..i + 1]).retriedGoAway;
    assert fs[..j][..i + 1] == fs[..i + 1];
    GoAwayStays(h, fs[..j], i + 1);
  }

  /** The client's own limit governs every request that is not a worker task poll. */
  lemma ClientLimitGovernsOtherCalls(
      clientConfig: RetryConfig, request: Option<Extensions>, start: int, throttleStart: int, fs: seq<Failure>)
    requires clientConfig.maxRetries > 0
    requires request.Some? ==> request.value.userLongPoll || !request.value.workerTaskLongPoll
    requires IsCall(NewHandler(GetCallInfo(clientConfig, request), THROTTLE_RETRY_POLICY, start, throttleStart), fs)
    ensures |fs| <= clientConfig.maxRetries
  {
    AttemptsAreBounded(NewHandler(GetCallInfo(clientConfig, request), THROTTLE_RETRY_POLICY, start, throttleStart), fs);
  }

  predicate IsGoAway(e: Status) {
    e.code == Cancelled && e.goAway
  }

  ghost predicate GoAwayBefore(fs: seq<Failure>, i: nat)
    requires i <= |fs|
  {
    exists j :: 0 <= j < i && IsGoAway(fs[j].e)
  }

  lemma GoAwayStep(h: Handler, attempt: nat, e: Status, a: Answers)
    requires Handle(h, attempt, e, a).1.WaitRetry?
    ensures Handle(h, attempt, e, a).0.retriedGoAway <==> h.retriedGoAway || IsGoAway(e)
  {
  }

  lemma GoAwayNext(h: Handler, fs: seq<Failure>, i: nat)
    requires IsCall(h, fs) && 0 < i < |fs|
    ensures After(h, fs[..i]).retriedGoAway <==> After(h, fs[..i - 1]).retriedGoAway || IsGoAway(fs[i - 1].e)
  {
    AfterStep(h, fs, i);
    assert PolicyAt(h, fs, i - 1).WaitRetry?;
    GoAwayStep(After(h, fs[..i - 1]), i, fs[i - 1].e, fs[i - 1].a);
  }

  /** Within a call the flag is set exactly when a connection-closed cancellation came before. */
  lemma {:induction false} GoAwayRemembered(h: Handler, fs: seq<Failure>, i: nat)
    requires !h.retriedGoAway && IsCall(h, fs) && i < |fs|
    ensures After(h, fs[..i]).retriedGoAway <==> GoAwayBefore(fs, i)
    decreases i
  {
    if i > 0 {
      GoAwayRemembered(h, fs, i - 1);
      GoAwayNext(h, fs, i);
    }
  }

  /** Exactly which errors of a call that is not a worker task poll reach the caller. */
  lemma OtherCallsForwardExactly(h: Handler, fs: seq<Failure>, i: nat)
    requires h.callType != TaskLongPoll && !h.retriedGoAway && IsCall(h, fs) && i < |fs|
    ensures PolicyAt(h, fs, i).ForwardError? <==>
            || 0 < h.maxRetries <= i + 1
            || Vetoed(h.shortCircuit, fs[i].e)
            || SaysTooLarge(fs[i].e)
            || fs[i].a.next.None?
            || (!IsRetryableCode(fs[i].e.code)
                && !(IsGoAway(fs[i].e) && !GoAwayBefore(fs, i)))
  {
    SetupStays(h, fs[..i]);
    GoAwayRemembered(h, fs, i);
    TooLargeIsSaid(fs[i].e);
    RetryableCodes(fs[i].e.code);
  }

  // ----- Worker task polls -----

  /** An error a worker task poll would not retry for its own sake. */
  predicate IsFatal(code: Code) {
    !IsRetryableCode(code) && !code.Cancelled? && !code.DeadlineExceeded?
  }

  /** The handler of a request marked as a worker task poll, whatever the client's own configuration. */
  function TaskPollHandler(
      clientConfig: RetryConfig, noRetryOn: Option<Predicate>, start: int, throttleStart: int): Handler
  {
    NewHandler(GetCallInfo(clientConfig, Some(Extensions(false, true, noRetryOn))), THROTTLE_RETRY_POLICY,
               start, throttleStart)
  }

  /** Exactly which errors of a worker task poll reach the caller. */
  lemma TaskPollForwardsExactly(
      clientConfig: RetryConfig, noRetryOn: Option<Predicate>, start: int, throttleStart: int,
      fs: seq<Failure>, i: nat)
    requires i < |fs|
    requires Honest(TaskPollHandler(clientConfig, noRetryOn, start, throttleStart), fs)
    ensures var h := TaskPollHandler(clientConfig, noRetryOn, start, throttleStart);
            PolicyAt(h, fs, i).ForwardError? <==>
            || Vetoed(noRetryOn, fs[i].e)
            || SaysTooLarge(fs[i].e)
            || (IsFatal(fs[i].e.code) && fs[i].a.now - start > 60_000)
  {
    SetupStays(TaskPollHandler(clientConfig, noRetryOn, start, throttleStart), fs[..i]);
    TooLargeIsSaid(fs[i].e);
    RetryableCodes(fs[i].e.code);
  }

  /** The answers to all errors of a call. */
  function Policies(h: Handler, fs: seq<Failure>): (ps: seq<Policy>)
    ensures |ps| == |fs|
    ensures forall i :: 0 <= i < |fs| ==> ps[i] == PolicyAt(h, fs, i)
  {
    seq(|fs|, i requires 0 <= i < |fs| => PolicyAt(h, fs, i))
  }

  /** How many fatal errors among the first `k` were answered by a wait. */
  function FatalWaits(fs: seq<Failure>, ps: seq<Policy>, k: nat): nat
    requires k <= |fs| == |ps|
  {
    if k == 0 then 0
    else FatalWaits(fs, ps, k - 1) + if IsFatal(fs[k - 1].e.code) && ps[k - 1].WaitRetry? then 1 else 0
  }

  function FatalRetries(h: Handler, fs: seq<Failure>, k: nat): nat
    requires k <= |fs|
  {
    FatalWaits(fs, Policies(h, fs), k)
  }

  /** A retried fatal error waits the maximum interval, and comes within the grace. */
  lemma FatalWait(h: Handler, fs: seq<Failure>, i: nat)
    requires h.callType == TaskLongPoll && i < |fs|
    requires IsFatal(fs[i].e.code) && PolicyAt(h, fs, i).WaitRetry?
    ensures PolicyAt(h, fs, i).wait == h.backoff.config.maxInterval
    ensures fs[i].a.now - h.backoff.start <= 60_000
  {
    SetupStays(h, fs[..i]);
    RetryableCodes(fs[i].e.code);
  }

  /** What the answers of a task poll say of its clock. */
  ghost predicate Timeline(fs: seq<Failure>, ps: seq<Policy>, start: int, interval: nat) {
    && |ps| == |fs|
    && (fs != [] ==> start <= fs[0].a.now)
    && (forall i :: 0 <= i < |fs| - 1 ==> ps[i].WaitRetry? && fs[i].a.now + ps[i].wait <= fs[i + 1].a.now)
    && (forall i :: 0 <= i < |fs| && ps[i].WaitRetry? && IsFatal(fs[i].e.code) ==>
                      ps[i].wait == interval && fs[i].a.now - start <= 60_000)
  }

  lemma CallHasTimeline(h: Handler, fs: seq<Failure>)
    requires h.callType == TaskLongPoll && IsCall(h, fs) && ClockRespectsWaits(h, fs)
    ensures Timeline(fs, Policies(h, fs), h.backoff.start, h.backoff.config.maxInterval)
  {
    forall i | 0 <= i < |fs| && Policies(h, fs)[i].WaitRetry? && IsFatal(fs[i].e.code)
      ensures Policies(h, fs)[i].wait == h.backoff.config.maxInterval
      ensures fs[i].a.now - h.backoff.start <= 60_000
    {
      FatalWait(h, fs, i);
    }
  }

  /** `n` intervals on end. */
  function Intervals(n: nat, interval: nat): nat {
    if n == 0 then 0 else Intervals(n - 1, interval) + interval
  }

  lemma {:induction false} IntervalsAreProduct(n: nat, interval: nat)
    ensures Intervals(n, interval) == n * interval
  {
    if n > 0 { IntervalsAreProduct(n - 1, interval); }
  }

  lemma {:induction false} WaitsTakeTime(fs: seq<Failure>, ps: seq<Policy>, start: int, interval: nat, k: nat)
    requires Timeline(fs, ps, start, interval) && k < |fs|
    ensures Intervals(FatalWaits(fs, ps, k), interval) <= fs[k].a.now - start
  {
    if k > 0 {
      WaitsTakeTime(fs, ps, start, interval, k - 1);
      assert ps[k - 1].WaitRetry? && fs[k - 1].a.now + ps[k - 1].wait <= fs[k].a.now;
    }
  }

  lemma {:induction false} WaitsFit(fs: seq<Failure>, ps: seq<Policy>, start: int, interval: nat, k: nat)
    requires Timeline(fs, ps, start, interval) && k <= |fs|
    ensures FatalWaits(fs, ps, k) > 0 ==> Intervals(FatalWaits(fs, ps, k) - 1, interval) <= 60_000
  {
    if k > 0 {
      WaitsFit(fs, ps, start, interval, k - 1);
      WaitsTakeTime(fs, ps, start, interval, k - 1);
    }
  }

  /** Each retried fatal error costs a full maximum interval of the grace. */
  lemma FatalRetriesTakeTime(h: Handler, fs: seq<Failure>, k: nat)
    requires h.callType == TaskLongPoll && IsCall(h, fs) && ClockRespectsWaits(h, fs) && k < |fs|
    ensures Intervals(FatalRetries(h, fs, k), h.backoff.config.maxInterval) <= fs[k].a.now - h.backoff.start
  {
    CallHasTimeline(h, fs);
    WaitsTakeTime(fs, Policies(h, fs), h.backoff.start, h.backoff.config.maxInterval, k);
  }

  lemma WaitsFitAsProduct(fs: seq<Failure>, ps: seq<Policy>, start: int, interval: nat, k: nat)
    requires Timeline(fs, ps, start, interval) && k <= |fs|
    ensures FatalWaits(fs, ps, k) > 0 ==> (FatalWaits(fs, ps, k) - 1) * interval <= 60_000
  {
    WaitsFit(fs, ps, start, interval, k);
    if FatalWaits(fs, ps, k) > 0 { IntervalsAreProduct(FatalWaits(fs, ps, k) - 1, interval); }
  }

  /**
   Bounded tolerance: all but one of the fatal errors waited out in one call fit, each with a whole
   maximum interval, into the grace, however they are mixed with other errors.
   */
  lemma FatalRetriesAreBounded(h: Handler, fs: seq<Failure>, k: nat)
    requires h.callType == TaskLongPoll && IsCall(h, fs) && ClockRespectsWaits(h, fs) && k <= |fs|
    ensures FatalRetries(h, fs, k) > 0 ==>
              (FatalRetries(h, fs, k) - 1) * h.backoff.config.maxInterval <= 60_000
  {
    CallHasTimeline(h, fs);
    WaitsFitAsProduct(fs, Policies(h, fs), h.backoff.start, h.backoff.config.maxInterval, k);
  }

  /** For worker task polls, with their ten-second intervals: at most seven. */
  lemma AtMostSevenFatalRetries(
      clientConfig: RetryConfig, noRetryOn: Option<Predicate>, start: int, throttleStart: int, fs: seq<Failure>)
    requires IsCall(TaskPollHandler(clientConfig, noRetryOn, start, throttleStart), fs)
    requires ClockRespectsWaits(TaskPollHandler(clientConfig, noRetryOn, start, throttleStart), fs)
    ensures FatalRetries(TaskPollHandler(clientConfig, noRetryOn, start, throttleStart), fs, |fs|) <= 7
  {
    var h := TaskPollHandler(clientConfig, noRetryOn, start, throttleStart);
    FatalRetriesAreBounded(h, fs, |fs|);
  }

  function FatalEveryTenSeconds(start: int, n: nat): seq<Failure> {
    seq(n, i => Failure(Status(NotFound, "", false, false), Answers(start + i * 10_000, Some(0), Some(0))))
  }

  lemma FatalPolicy(clientConfig: RetryConfig, start: int, throttleStart: int, i: nat)
    requires i < 8
    ensures var h := TaskPollHandler(clientConfig, None, start, throttleStart);
            var fs := FatalEveryTenSeconds(start, 8);
            PolicyAt(h, fs, i) == if i < 7 then WaitRetry(10_000) else ForwardError(fs[i].e)
  {
    SetupStays(TaskPollHandler(clientConfig, None, start, throttleStart), FatalEveryTenSeconds(start, 8)[..i]);
  }

  lemma {:induction false} FatalCount(clientConfig: RetryConfig, start: int, throttleStart: int, k: nat)
    requires k <= 7
    ensures FatalRetries(TaskPollHandler(clientConfig, None, start, throttleStart),
                         FatalEveryTenSeconds(start, 8), k) == k
    decreases k
  {
    if k > 0 {
      FatalPolicy(clientConfig, start, throttleStart, k - 1);
      FatalCount(clientConfig, start, throttleStart, k - 1);
    }
  }

  /** And seven are waited out when one comes after each wait; the eighth is forwarded. */
  lemma SevenFatalRetriesHappen(clientConfig: RetryConfig, start: int, throttleStart: int)
    ensures var h := TaskPollHandler(clientConfig, None, start, throttleStart);
            var fs := FatalEveryTenSeconds(start, 8);
            && IsCall(h, fs) && ClockRespectsWaits(h, fs)
            && FatalRetries(h, fs, 7) == 7
            && PolicyAt(h, fs, 7).ForwardError?
  {
    FatalCount(clientConfig, start, throttleStart, 7);
    forall i: nat | i < 8
      ensures var h := TaskPollHandler(clientConfig, None, start, throttleStart);
              var fs := FatalEveryTenSeconds(start, 8);
              PolicyAt(h, fs, i) == if i < 7 then WaitRetry(10_000) else ForwardError(fs[i].e)
    {
      FatalPolicy(clientConfig, start, throttleStart, i);
    }
  }

  // ----- Throttling -----

  /** How many resource-exhausted errors among the first `k` were answered by a wait. */
  function ThrottledRetries(h: Handler, fs: seq<Failure>, k: nat): nat
    requires k <= |fs|
  {
    if k == 0 then 0
    else
      ThrottledRetries(h, fs, k - 1) +
      if fs[k - 1].e.code == ResourceExhausted && PolicyAt(h, fs, k - 1).WaitRetry? then 1 else 0
  }

  lemma ThrottleStep(h: Handler, attempt: nat, e: Status, a: Answers)
    ensures Handle(h, attempt, e, a).0.throttle.advances ==
            h.throttle.advances +
            if e.code == ResourceExhausted && Handle(h, attempt, e, a).1.WaitRetry? then 1 else 0
  {
  }

  /** The throttle schedule advances once per retried resource-exhausted error and never otherwise. */
  lemma {:induction false} ThrottleAdvancesExactly(h: Handler, fs: seq<Failure>, k: nat)
    requires k <= |fs|
    ensures After(h, fs[..k]).throttle.advances == h.throttle.advances + ThrottledRetries(h, fs, k)
  {
    if k > 0 {
      ThrottleAdvancesExactly(h, fs, k - 1);
      AfterStep(h, fs, k);
      ThrottleStep(After(h, fs[..k - 1]), k, fs[k - 1].e, fs[k - 1].a);
    }
  }

  lemma WaitOf(h: Handler, attempt: nat, e: Status, a: Answers)
    requires Handle(h, attempt, e, a).1.WaitRetry?
    ensures Retryable(h, e) ==> a.next.Some?
    ensures Handle(h, attempt, e, a).1.wait ==
            if !Retryable(h, e) then h.backoff.config.maxInterval
            else if e.code == ResourceExhausted && a.throttle.Some? then Max(a.next.value, a.throttle.value)
            else a.next.value
  {
  }

  /** An error that its code, the call's type or its being the first go-away of the call makes worth retrying. */
  ghost predicate WorthRetrying(h: Handler, fs: seq<Failure>, i: nat)
    requires i < |fs|
  {
    || IsRetryableCode(fs[i].e.code)
    || (h.callType == TaskLongPoll && (fs[i].e.code == Cancelled || fs[i].e.code == DeadlineExceeded))
    || (IsGoAway(fs[i].e) && !GoAwayBefore(fs, i))
  }

  lemma RetryableInCall(h: Handler, fs: seq<Failure>, i: nat)
    requires !h.retriedGoAway && IsCall(h, fs) && i < |fs|
    ensures Retryable(After(h, fs[..i]), fs[i].e) <==> WorthRetrying(h, fs, i)
  {
    SetupStays(h, fs[..i]);
    GoAwayRemembered(h, fs, i);
    RetryableCodes(fs[i].e.code);
  }

  /** How long a retried error waits: the grace interval if fatal, else the backoff, else the longer of both. */
  lemma WaitsAreExact(h: Handler, fs: seq<Failure>, i: nat)
    requires !h.retriedGoAway && IsCall(h, fs) && i < |fs| && PolicyAt(h, fs, i).WaitRetry?
    ensures WorthRetrying(h, fs, i) ==> fs[i].a.next.Some?
    ensures PolicyAt(h, fs, i).wait ==
            if !WorthRetrying(h, fs, i) then h.backoff.config.maxInterval
            else if fs[i].e.code.ResourceExhausted? && fs[i].a.throttle.Some?
                    && fs[i].a.throttle.value > fs[i].a.next.value then fs[i].a.throttle.value
            else fs[i].a.next.value
  {
    SetupStays(h, fs[..i]);
    RetryableInCall(h, fs, i);
    WaitOf(After(h, fs[..i]), i + 1, fs[i].e, fs[i].a);
  }

  /** What ends a call is its latest error itself; the too-large marker is all that is ever added. */
  lemma ForwardedErrorIsGenuine(h: Handler, fs: seq<Failure>, i: nat)
    requires i < |fs| && PolicyAt(h, fs, i).ForwardError?
    ensures PolicyAt(h, fs, i).e ==
            if SaysTooLarge(fs[i].e) && !(0 < h.maxRetries <= i + 1) && !Vetoed(h.shortCircuit, fs[i].e)
            then fs[i].e.(markedTooLarge := true) else fs[i].e
  {
    SetupStays(h, fs[..i]);
    TooLargeIsSaid(fs[i].e);
  }

  /** An exhausted server is waited for, unless what it was exhausted by was the message itself. */
  lemma ExhaustedIsThrottled(h: Handler, fs: seq<Failure>, i: nat)
    requires i < |fs| && fs[i].e.code.ResourceExhausted?
    requires !(0 < h.maxRetries <= i + 1) && !Vetoed(h.shortCircuit, fs[i].e)
    ensures SaysTooLarge(fs[i].e) ==> PolicyAt(h, fs, i) == ForwardError(fs[i].e.(markedTooLarge := true))
    ensures !SaysTooLarge(fs[i].e) && fs[i].a.next.Some? ==>
              PolicyAt(h, fs, i) ==
              WaitRetry(if fs[i].a.throttle.Some? && fs[i].a.throttle.value > fs[i].a.next.value
                        then fs[i].a.throttle.value else fs[i].a.next.value)
    ensures !SaysTooLarge(fs[i].e) && fs[i].a.next.None? ==> PolicyAt(h, fs, i) == ForwardError(fs[i].e)
  {
    SetupStays(h, fs[..i]);
    TooLargeIsSaid(fs[i].e);
  }

  // ----- How often the backoffs are asked -----

  function Exhaustions(n: nat): seq<Failure> {
    seq(n, i => Failure(Status(ResourceExhausted, "rate limit", false, false), Answers(0, Some(0), Some(0))))
  }

  lemma RateLimitIsNotTooLarge(e: Status)
    requires e.message == "rate limit"
    ensures !SaysTooLarge(e)
  {
    assert e.message[0] == 'r';
    assert "grpc: received message larger than max"[0] == 'g';
    assert "grpc: message after decompression larger than max"[0] == 'g';
    assert "grpc: received message after decompression larger than max"[0] == 'g';
  }

  lemma ExhaustionWaits(h: Handler, n: nat, i: nat)
    requires i < n && h.maxRetries == 0 && h.shortCircuit.None?
    ensures PolicyAt(h, Exhaustions(n), i).WaitRetry?
  {
    RateLimitIsNotTooLarge(Exhaustions(n)[i].e);
    ExhaustedIsThrottled(h, Exhaustions(n), i);
  }

  lemma {:induction false} ExhaustionsThrottle(h: Handler, n: nat, k: nat)
    requires k <= n && h.maxRetries == 0 && h.shortCircuit.None?
    ensures ThrottledRetries(h, Exhaustions(n), k) == k
  {
    if k > 0 {
      ExhaustionsThrottle(h, n, k - 1);
      ExhaustionWaits(h, n, k - 1);
    }
  }

  /** The throttle can advance any number of times in one call. */
  lemma ThrottleAdvancesWithoutBound(
      clientConfig: RetryConfig, start: int, throttleStart: int, n: nat) returns (fs: seq<Failure>)
    ensures var h := TaskPollHandler(clientConfig, None, start, throttleStart);
            IsCall(h, fs) && After(h, fs).throttle.advances == n
  {
    var h := TaskPollHandler(clientConfig, None, start, throttleStart);
    fs := Exhaustions(n);
    forall i: nat | i < n ensures PolicyAt(h, fs, i).WaitRetry? { ExhaustionWaits(h, n, i); }
    ExhaustionsThrottle(h, n, n);
    ThrottleAdvancesExactly(h, fs, n);
    assert fs[..n] == fs;
  }

  /** How many of the first `k` errors were worth retrying. */
  ghost function WorthRetryingCount(h: Handler, fs: seq<Failure>, k: nat): nat
    requires k <= |fs|
  {
    if k == 0 then 0
    else WorthRetryingCount(h, fs, k - 1) + if WorthRetrying(h, fs, k - 1) then 1 else 0
  }

  lemma BackoffStep(h: Handler, attempt: nat, e: Status, a: Answers)
    requires Handle(h, attempt, e, a).1.WaitRetry?
    ensures Handle(h, attempt, e, a).0.backoff ==
            h.backoff.(advances := h.backoff.advances + if Retryable(h, e) then 1 else 0)
  {
  }

  lemma BackoffAfterWait(h: Handler, fs: seq<Failure>, k: nat)
    requires 0 < k <= |fs| && PolicyAt(h, fs, k - 1).WaitRetry?
    ensures After(h, fs[..k]).backoff.advances ==
            After(h, fs[..k - 1]).backoff.advances + if Retryable(After(h, fs[..k - 1]), fs[k - 1].e) then 1 else 0
  {
    AfterStep(h, fs, k);
    BackoffStep(After(h, fs[..k - 1]), k, fs[k - 1].e, fs[k - 1].a);
  }

  lemma BackoffNext(h: Handler, fs: seq<Failure>, k: nat)
    requires !h.retriedGoAway && IsCall(h, fs) && 0 < k < |fs|
    ensures After(h, fs[..k]).backoff.advances ==
            After(h, fs[..k - 1]).backoff.advances + if WorthRetrying(h, fs, k - 1) then 1 else 0
  {
    RetryableInCall(h, fs, k - 1);
    BackoffAfterWait(h, fs, k);
  }

  /** Within a call the ordinary backoff advances once per error worth retrying; fatal ones do not use it up. */
  lemma {:induction false} BackoffAdvancesExactly(h: Handler, fs: seq<Failure>, k: nat)
    requires !h.retriedGoAway && IsCall(h, fs) && k < |fs|
    ensures After(h, fs[..k]).backoff.advances == h.backoff.advances + WorthRetryingCount(h, fs, k)
  {
    if k > 0 {
      BackoffAdvancesExactly(h, fs, k - 1);
      BackoffNext(h, fs, k);
    }
  }
}
