/**
 The closable permit dealer under concurrency: one step per atomic load, store or read-modify-write,
 sequentially consistent, with any number of callers. Callers at the same program point are
 interchangeable (none carries a value of its own), so the state counts them instead of naming them.
 */
module CloseSteps {
  datatype State = State(
    outstanding: int,       // `outstanding_permits`
    closeRequested: bool,   // `close_requested`
    cancelled: bool,        // `close_complete_token`
    checked: nat,           // acquirers that read the flag as false and are about to count themselves
    counted: nat,           // acquirers that counted themselves and wait for the inner dealer
    refused: nat,           // acquirers refused by the inner dealer, about to uncount themselves
    tracked: nat,           // tracked permits handed out and neither dropped nor converted
    uncounted: nat,         // dropped permits that uncounted themselves, about to read the flag
    sawClose: nat,          // dropped permits that read the flag as true, about to read the count
    dropCancels: nat,       // dropped permits that read a count of 0, about to cancel the token
    closing: nat,           // close calls that stored the flag, about to read the count
    closeCancels: nat)      // close calls that read a count of 0, about to cancel the token

  const INIT := State(0, false, false, 0, 0, 0, 0, 0, 0, 0, 0, 0)

  datatype Step =
    | AcquireCheck | AcquireCount | AcquireGranted | AcquireRefused | AcquireUncount
    | DropUncount | DropReadFlag | DropReadCount | DropCancel
    | CloseStore | CloseReadCount | CloseCancel

  predicate Enabled(s: State, step: Step) {
    match step
    case AcquireCheck => true
    case AcquireCount => s.checked > 0
    case AcquireGranted => s.counted > 0
    case AcquireRefused => s.counted > 0
    case AcquireUncount => s.refused > 0
    case DropUncount => s.tracked > 0
    case DropReadFlag => s.uncounted > 0
    case DropReadCount => s.sawClose > 0
    case DropCancel => s.dropCancels > 0
    case CloseStore => true
    case CloseReadCount => s.closing > 0
    case CloseCancel => s.closeCancels > 0
  }

  function Do(s: State, step: Step): State
    requires Enabled(s, step)
  {
    match step
    case AcquireCheck => if s.closeRequested then s else s.(checked := s.checked + 1)
    case AcquireCount => s.(outstanding := s.outstanding + 1, checked := s.checked - 1, counted := s.counted + 1)
    case AcquireGranted => s.(counted := s.counted - 1, tracked := s.tracked + 1)
    case AcquireRefused => s.(counted := s.counted - 1, refused := s.refused + 1)
    case AcquireUncount => s.(outstanding := s.outstanding - 1, refused := s.refused - 1)
    case DropUncount => s.(outstanding := s.outstanding - 1, tracked := s.tracked - 1, uncounted := s.uncounted + 1)
    case DropReadFlag =>
      s.(uncounted := s.uncounted - 1, sawClose := s.sawClose + if s.closeRequested then 1 else 0)
    case DropReadCount =>
      s.(sawClose := s.sawClose - 1, dropCancels := s.dropCancels + if s.outstanding == 0 then 1 else 0)
    case DropCancel => s.(dropCancels := s.dropCancels - 1, cancelled := true)
    case CloseStore => s.(closeRequested := true, closing := s.closing + 1)
    case CloseReadCount =>
      s.(closing := s.closing - 1, closeCancels := s.closeCancels + if s.outstanding == 0 then 1 else 0)
    case CloseCancel => s.(closeCancels := s.closeCancels - 1, cancelled := true)
  }

  /** An interleaving: each step is enabled where it is taken. */
  predicate Legal(s: State, run: seq<Step>)
    decreases |run|
  {
    run == [] || (Enabled(s, run[0]) && Legal(Do(s, run[0]), run[1..]))
  }

  function After(s: State, run: seq<Step>): State
    requires Legal(s, run)
    decreases |run|
  {
    if run == [] then s else After(Do(s, run[0]), run[1..])
  }

  // ----- Properties of single states -----

  predicate NoAcquireInFlight(s: State) {
    s.checked == 0 && s.counted == 0 && s.refused == 0
  }

  /** Every call in progress has finished. */
  predicate Quiet(s: State) {
    && NoAcquireInFlight(s)
    && s.uncounted == 0 && s.sawClose == 0 && s.dropCancels == 0
    && s.closing == 0 && s.closeCancels == 0
  }

  /** The count is exact and, before a close, nothing that only a close causes has happened. */
  predicate Counts(s: State) {
    && s.outstanding == s.counted + s.refused + s.tracked
    && (!s.closeRequested ==>
          !s.cancelled && s.sawClose == 0 && s.dropCancels == 0 && s.closing == 0 && s.closeCancels == 0)
  }

  /** Over every run the count is the number of callers and permits it stands for, so it never underflows. */
  lemma {:induction false} CountIsExact(s: State, run: seq<Step>)
    requires Counts(s) && Legal(s, run)
    ensures Counts(After(s, run)) && 0 <= After(s, run).outstanding
    decreases |run|
  {
    if run != [] { CountIsExact(Do(s, run[0]), run[1..]); }
  }

  /** After a close requested with no acquire in flight. */
  predicate Closing(s: State) {
    && s.closeRequested && NoAcquireInFlight(s)
    && s.outstanding == s.tracked
    && (s.cancelled || s.dropCancels > 0 || s.closeCancels > 0 ==> s.tracked == 0)
    && (s.tracked == 0 && !s.cancelled ==>
          s.uncounted + s.sawClose + s.dropCancels + s.closing + s.closeCancels > 0)
  }

  lemma {:induction false} ClosingIsKept(s: State, run: seq<Step>)
    requires Closing(s) && Legal(s, run)
    ensures Closing(After(s, run))
    decreases |run|
  {
    if run != [] { ClosingIsKept(Do(s, run[0]), run[1..]); }
  }

  // ----- With an acquire in flight -----

  /** How many steps can still be taken towards a lost close. */
  function Pending(s: State): int {
    3 * s.checked + 2 * s.counted + s.refused + 3 * s.tracked + 2 * s.uncounted + s.sawClose + s.closing
  }

  lemma Prepend(s: State, step: Step, run: seq<Step>)
    requires Enabled(s, step) && Legal(Do(s, step), run)
    ensures Legal(s, [step] + run) && After(s, [step] + run) == After(Do(s, step), run)
  {
    assert ([step] + run)[1..] == run;
  }

  /**
   An acquire in flight after the flag is stored can make the close get lost: everyone else finishes
   while the acquirer keeps the count above 0, then it is refused and uncounts itself unseen.
   */
  lemma {:induction false} CloseCanBeLost(s: State) returns (run: seq<Step>)
    requires Counts(s) && s.closeRequested && !s.cancelled && !NoAcquireInFlight(s)
    requires s.dropCancels == 0 && s.closeCancels == 0
    ensures Legal(s, run)
    ensures After(s, run) == INIT.(closeRequested := true)
    decreases Pending(s)
  {
    var step :=
      if s.checked > 0 then AcquireCount
      else if s.counted > 0 then AcquireRefused
      else if s.refused > 1 then AcquireUncount
      else if s.tracked > 0 then DropUncount
      else if s.uncounted > 0 then DropReadFlag
      else if s.sawClose > 0 then DropReadCount
      else if s.closing > 0 then CloseReadCount
      else AcquireUncount;
    var t := Do(s, step);
    var rest := [];
    if !NoAcquireInFlight(t) { rest := CloseCanBeLost(t); }
    Prepend(s, step, rest);
    run := [step] + rest;
  }

  /** The other failure: an acquirer is past the check; the token is cancelled, then a permit handed out. */
  lemma CloseCanBeEarly(s: State) returns (run: seq<Step>)
    requires Counts(s) && s.checked > 0 && s.outstanding == 0
    ensures Legal(Do(s, CloseStore), run)
    ensures After(Do(s, CloseStore), run).cancelled && After(Do(s, CloseStore), run).tracked == 1
  {
    var s1 := Do(s, CloseStore);
    var s2 := Do(s1, CloseReadCount);
    var s3 := Do(s2, CloseCancel);
    var s4 := Do(s3, AcquireCount);
    run := [AcquireGranted];
    Prepend(s4, AcquireGranted, []);
    assert [AcquireGranted] + [] == run;
    Prepend(s3, AcquireCount, run);
    run := [AcquireCount] + run;
    Prepend(s2, CloseCancel, run);
    run := [CloseCancel] + run;
    Prepend(s1, CloseReadCount, run);
    run := [CloseReadCount] + run;
  }

  // ----- The close completes -----

  /** Steps that finish calls already begun or drop permits, as opposed to new calls. */
  predicate IsProgress(step: Step) {
    !step.AcquireCheck? && !step.CloseStore?
  }

  function Work(s: State): nat {
    5 * (s.checked + s.counted) + 5 * s.checked + s.refused
    + 4 * s.tracked + 3 * s.uncounted + 2 * s.sawClose + s.dropCancels + 2 * s.closing + s.closeCancels
  }

  /** Finishing takes a bounded number of steps whatever the order. */
  lemma {:induction false} RunsAreBounded(s: State, run: seq<Step>)
    requires Legal(s, run) && forall step :: step in run ==> IsProgress(step)
    ensures |run| + Work(After(s, run)) <= Work(s)
    decreases |run|
  {
    if run != [] {
      assert IsProgress(run[0]);
      RunsAreBounded(Do(s, run[0]), run[1..]);
    }
  }

  /** Once no call can go on and no permit is left to drop, the token is cancelled. */
  lemma CloseCompletes(s: State, run: seq<Step>)
    requires Counts(s) && !s.closeRequested && NoAcquireInFlight(s)
    requires Legal(Do(s, CloseStore), run)
    requires forall step :: IsProgress(step) ==> !Enabled(After(Do(s, CloseStore), run), step)
    ensures After(Do(s, CloseStore), run).cancelled
  {
    ClosingIsKept(Do(s, CloseStore), run);
    var t := After(Do(s, CloseStore), run);
    assert !Enabled(t, DropUncount) && !Enabled(t, DropReadFlag) && !Enabled(t, DropReadCount);
    assert !Enabled(t, DropCancel) && !Enabled(t, CloseReadCount) && !Enabled(t, CloseCancel);
  }
}
