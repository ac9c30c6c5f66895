/**
 The same closable dealer with every caller and permit named. Forgetting the names yields exactly the
 counted machine of `CloseSteps`, in both directions, so what holds there holds here.
 */
module CloseThreads {
  import opened Census
  import Counted = CloseSteps

  type Thread = nat

  /** Where a thread (an acquirer that may become a tracked permit that may be dropped, or a closer) stands. */
  datatype Place =
    | Checked | Counted | Refused | Tracked | Uncounted | SawClose | DropCancels | Closing | CloseCancels

  datatype Named = Named(
    outstanding: int,
    closeRequested: bool,
    cancelled: bool,
    at: map<Thread, Place>,
    next: Thread)

  function Forget(n: Named): Counted.State {
    Counted.State(
      n.outstanding, n.closeRequested, n.cancelled,
      Count(n.at, Checked), Count(n.at, Counted), Count(n.at, Refused), Count(n.at, Tracked),
      Count(n.at, Uncounted), Count(n.at, SawClose), Count(n.at, DropCancels),
      Count(n.at, Closing), Count(n.at, CloseCancels))
  }

  /** The place a step is taken from; the two call entries are taken by a new thread. */
  function From(step: Counted.Step): Place
    requires !step.AcquireCheck? && !step.CloseStore?
  {
    match step
    case AcquireCount => Checked
    case AcquireGranted => Counted
    case AcquireRefused => Counted
    case AcquireUncount => Refused
    case DropUncount => Tracked
    case DropReadFlag => Uncounted
    case DropReadCount => SawClose
    case DropCancel => DropCancels
    case CloseReadCount => Closing
    case CloseCancel => CloseCancels
  }

  predicate Enabled(n: Named, step: Counted.Step, t: Thread) {
    if step.AcquireCheck? || step.CloseStore? then t == n.next
    else t in n.at && n.at[t] == From(step)
  }

  function Move(n: Named, t: Thread, place: Place): Named {
    n.(at := n.at[t := place])
  }

  function Finish(n: Named, t: Thread): Named {
    n.(at := n.at - {t})
  }

  function Do(n: Named, step: Counted.Step, t: Thread): Named
    requires Enabled(n, step, t)
  {
    match step
    case AcquireCheck =>
      var n' := n.(next := n.next + 1);
      if n.closeRequested then n' else Move(n', t, Checked)
    case AcquireCount => Move(n.(outstanding := n.outstanding + 1), t, Counted)
    case AcquireGranted => Move(n, t, Tracked)
    case AcquireRefused => Move(n, t, Refused)
    case AcquireUncount => Finish(n.(outstanding := n.outstanding - 1), t)
    case DropUncount => Move(n.(outstanding := n.outstanding - 1), t, Uncounted)
    case DropReadFlag => if n.closeRequested then Move(n, t, SawClose) else Finish(n, t)
    case DropReadCount => if n.outstanding == 0 then Move(n, t, DropCancels) else Finish(n, t)
    case DropCancel => Finish(n.(cancelled := true), t)
    case CloseStore => Move(n.(closeRequested := true, next := n.next + 1), t, Closing)
    case CloseReadCount => if n.outstanding == 0 then Move(n, t, CloseCancels) else Finish(n, t)
    case CloseCancel => Finish(n.(cancelled := true), t)
  }

  ghost predicate Fresh(n: Named) {
    forall t :: t in n.at ==> t < n.next
  }

  /** How many the counted machine has at a place, and one more or one fewer there. */
  function Headcount(s: Counted.State, place: Place): nat {
    match place
    case Checked => s.checked
    case Counted => s.counted
    case Refused => s.refused
    case Tracked => s.tracked
    case Uncounted => s.uncounted
    case SawClose => s.sawClose
    case DropCancels => s.dropCancels
    case Closing => s.closing
    case CloseCancels => s.closeCancels
  }

  function Adjust(s: Counted.State, place: Place, d: int): Counted.State
    requires 0 <= Headcount(s, place) + d
  {
    match place
    case Checked => s.(checked := s.checked + d)
    case Counted => s.(counted := s.counted + d)
    case Refused => s.(refused := s.refused + d)
    case Tracked => s.(tracked := s.tracked + d)
    case Uncounted => s.(uncounted := s.uncounted + d)
    case SawClose => s.(sawClose := s.sawClose + d)
    case DropCancels => s.(dropCancels := s.dropCancels + d)
    case Closing => s.(closing := s.closing + d)
    case CloseCancels => s.(closeCancels := s.closeCancels + d)
  }

  lemma AdjustHeadcount(s: Counted.State, place: Place, d: int, x: Place)
    requires 0 <= Headcount(s, place) + d
    ensures Headcount(Adjust(s, place, d), x) == Headcount(s, x) + if x == place then d else 0
  {
  }

  lemma SameHeadcounts(r: Counted.State, s: Counted.State)
    requires r.outstanding == s.outstanding && r.closeRequested == s.closeRequested && r.cancelled == s.cancelled
    requires forall x :: Headcount(r, x) == Headcount(s, x)
    ensures r == s
  {
    assert Headcount(r, Checked) == Headcount(s, Checked) && Headcount(r, Counted) == Headcount(s, Counted);
    assert Headcount(r, Refused) == Headcount(s, Refused) && Headcount(r, Tracked) == Headcount(s, Tracked);
    assert Headcount(r, Uncounted) == Headcount(s, Uncounted) && Headcount(r, SawClose) == Headcount(s, SawClose);
    assert Headcount(r, DropCancels) == Headcount(s, DropCancels) && Headcount(r, Closing) == Headcount(s, Closing);
    assert Headcount(r, CloseCancels) == Headcount(s, CloseCancels);
  }

  lemma HeadcountIsCount(n: Named, x: Place)
    ensures Headcount(Forget(n), x) == Count(n.at, x)
  {
  }

  lemma ForgetEnter(n: Named, t: Thread, place: Place)
    requires t !in n.at
    ensures Forget(Move(n, t, place)) == Adjust(Forget(n), place, 1)
  {
    forall x ensures Headcount(Forget(Move(n, t, place)), x) == Headcount(Adjust(Forget(n), place, 1), x) {
      HeadcountIsCount(n, x);
      HeadcountIsCount(Move(n, t, place), x);
      CountAfterUpdate(n.at, t, place, x);
      AdjustHeadcount(Forget(n), place, 1, x);
    }
    SameHeadcounts(Forget(Move(n, t, place)), Adjust(Forget(n), place, 1));
  }

  lemma ForgetFinish(n: Named, t: Thread)
    requires t in n.at
    ensures 0 < Headcount(Forget(n), n.at[t])
    ensures Forget(Finish(n, t)) == Adjust(Forget(n), n.at[t], -1)
  {
    assert t in Group(n.at, n.at[t]);
    HeadcountIsCount(n, n.at[t]);
    forall x ensures Headcount(Forget(Finish(n, t)), x) == Headcount(Adjust(Forget(n), n.at[t], -1), x) {
      HeadcountIsCount(n, x);
      HeadcountIsCount(Finish(n, t), x);
      CountAfterRemoval(n.at, t, x);
      AdjustHeadcount(Forget(n), n.at[t], -1, x);
    }
    SameHeadcounts(Forget(Finish(n, t)), Adjust(Forget(n), n.at[t], -1));
  }

  lemma ForgetMove(n: Named, t: Thread, place: Place)
    requires t in n.at
    ensures 0 < Headcount(Forget(n), n.at[t])
    ensures Forget(Move(n, t, place)) == Adjust(Adjust(Forget(n), n.at[t], -1), place, 1)
  {
    ForgetFinish(n, t);
    ForgetEnter(Finish(n, t), t, place);
    assert (n.at - {t})[t := place] == n.at[t := place];
  }

  lemma AcquireIsCounted(n: Named, step: Counted.Step, t: Thread)
    requires Fresh(n) && Enabled(n, step, t)
    requires || step.AcquireCheck? || step.AcquireCount? || step.AcquireGranted?
             || step.AcquireRefused? || step.AcquireUncount?
    ensures Counted.Enabled(Forget(n), step)
    ensures Forget(Do(n, step, t)) == Counted.Do(Forget(n), step)
  {
    match step {
      case AcquireCheck => if !n.closeRequested { ForgetEnter(n.(next := n.next + 1), t, Checked); }
      case AcquireCount => ForgetMove(n.(outstanding := n.outstanding + 1), t, Counted);
      case AcquireGranted => ForgetMove(n, t, Tracked);
      case AcquireRefused => ForgetMove(n, t, Refused);
      case AcquireUncount => ForgetFinish(n.(outstanding := n.outstanding - 1), t);
    }
  }

  lemma DropIsCounted(n: Named, step: Counted.Step, t: Thread)
    requires Fresh(n) && Enabled(n, step, t)
    requires step.DropUncount? || step.DropReadFlag?
    ensures Counted.Enabled(Forget(n), step)
    ensures Forget(Do(n, step, t)) == Counted.Do(Forget(n), step)
  {
    match step {
      case DropUncount => ForgetMove(n.(outstanding := n.outstanding - 1), t, Uncounted);
      case DropReadFlag => if n.closeRequested { ForgetMove(n, t, SawClose); } else { ForgetFinish(n, t); }
    }
  }

  lemma DropEndIsCounted(n: Named, step: Counted.Step, t: Thread)
    requires Fresh(n) && Enabled(n, step, t)
    requires step.DropReadCount? || step.DropCancel?
    ensures Counted.Enabled(Forget(n), step)
    ensures Forget(Do(n, step, t)) == Counted.Do(Forget(n), step)
  {
    match step {
      case DropReadCount => if n.outstanding == 0 { ForgetMove(n, t, DropCancels); } else { ForgetFinish(n, t); }
      case DropCancel => ForgetFinish(n.(cancelled := true), t);
    }
  }

  lemma CloseIsCounted(n: Named, step: Counted.Step, t: Thread)
    requires Fresh(n) && Enabled(n, step, t)
    requires step.CloseStore? || step.CloseReadCount? || step.CloseCancel?
    ensures Counted.Enabled(Forget(n), step)
    ensures Forget(Do(n, step, t)) == Counted.Do(Forget(n), step)
  {
    match step {
      case CloseStore => ForgetEnter(n.(closeRequested := true, next := n.next + 1), t, Closing);
      case CloseReadCount => if n.outstanding == 0 { ForgetMove(n, t, CloseCancels); } else { ForgetFinish(n, t); }
      case CloseCancel => ForgetFinish(n.(cancelled := true), t);
    }
  }

  /** A named step is the counted step of the same name. */
  lemma NamedStepIsCounted(n: Named, step: Counted.Step, t: Thread)
    requires Fresh(n) && Enabled(n, step, t)
    ensures Counted.Enabled(Forget(n), step)
    ensures Forget(Do(n, step, t)) == Counted.Do(Forget(n), step)
    ensures Fresh(Do(n, step, t))
  {
    if step.CloseStore? || step.CloseReadCount? || step.CloseCancel? {
      CloseIsCounted(n, step, t);
    } else if step.DropUncount? || step.DropReadFlag? {
      DropIsCounted(n, step, t);
    } else if step.DropReadCount? || step.DropCancel? {
      DropEndIsCounted(n, step, t);
    } else {
      AcquireIsCounted(n, step, t);
    }
  }

  /** Whatever the counted machine can do, some thread of the named machine can do. */
  lemma CountedStepIsNamed(n: Named, step: Counted.Step) returns (t: Thread)
    requires Counted.Enabled(Forget(n), step)
    ensures Enabled(n, step, t)
  {
    if step.AcquireCheck? || step.CloseStore? {
      t := n.next;
    } else {
      assert Group(n.at, From(step)) != {};
      t :| t in Group(n.at, From(step));
    }
  }

  /** A run of named threads: each step with the thread that takes it. */
  predicate Legal(n: Named, run: seq<(Counted.Step, Thread)>)
    decreases |run|
  {
    run == [] || (Enabled(n, run[0].0, run[0].1) && Legal(Do(n, run[0].0, run[0].1), run[1..]))
  }

  function After(n: Named, run: seq<(Counted.Step, Thread)>): Named
    requires Legal(n, run)
    decreases |run|
  {
    if run == [] then n else After(Do(n, run[0].0, run[0].1), run[1..])
  }

  const INIT := Named(0, false, false, map[], 0)

  lemma {:induction false} NamedCounts(n: Named, run: seq<(Counted.Step, Thread)>)
    requires Fresh(n) && Counted.Counts(Forget(n)) && Legal(n, run)
    ensures Fresh(After(n, run)) && Counted.Counts(Forget(After(n, run)))
    decreases |run|
  {
    if run != [] {
      NamedStepIsCounted(n, run[0].0, run[0].1);
      Counted.Prepend(Forget(n), run[0].0, []);
      Counted.CountIsExact(Forget(n), [run[0].0] + []);
      NamedCounts(Do(n, run[0].0, run[0].1), run[1..]);
    }
  }

  ghost predicate Holds(n: Named, t: Thread, place: Place) {
    t in n.at && n.at[t] == place
  }

  /** Some thread is between reading the flag as false and having its permit or its refusal settled. */
  ghost predicate AcquireInFlight(n: Named) {
    exists t :: Holds(n, t, Checked) || Holds(n, t, Counted) || Holds(n, t, Refused)
  }

  /** Not cancelled while a permit is tracked; cancelled once no thread and no permit is left. */
  ghost predicate CloseIsSound(n: Named) {
    && (n.cancelled ==> forall t :: !Holds(n, t, Tracked))
    && (n.closeRequested && n.at == map[] ==> n.cancelled)
  }

  lemma PlaceIsEmpty(n: Named, place: Place)
    ensures Count(n.at, place) == 0 <==> forall t :: !Holds(n, t, place)
  {
    if Count(n.at, place) == 0 {
      forall t ensures !Holds(n, t, place) { assert Holds(n, t, place) ==> t in Group(n.at, place); }
    } else {
      var t :| t in Group(n.at, place);
      assert Holds(n, t, place);
    }
  }

  lemma {:induction false} NamedRunIsSound(n: Named, run: seq<(Counted.Step, Thread)>)
    requires Fresh(n) && Counted.Closing(Forget(n)) && Legal(n, run)
    ensures CloseIsSound(After(n, run))
    decreases |run|
  {
    if run == [] {
      PlaceIsEmpty(n, Tracked);
      if n.at == map[] { EveryPlaceEmpty(n); }
    } else {
      var step, t := run[0].0, run[0].1;
      NamedStepIsCounted(n, step, t);
      Counted.Prepend(Forget(n), step, []);
      Counted.ClosingIsKept(Forget(n), [step] + []);
      NamedRunIsSound(Do(n, step, t), run[1..]);
    }
  }

  lemma EveryPlaceEmpty(n: Named)
    ensures n.at == map[] <==> Counted.Quiet(Forget(n)) && Forget(n).tracked == 0
  {
    if n.at == map[] {
      forall p: Place ensures Count(n.at, p) == 0 { PlaceIsEmpty(n, p); }
    } else {
      var t :| t in n.at;
      PlaceIsEmpty(n, n.at[t]);
      assert Holds(n, t, n.at[t]);
    }
  }

  ghost predicate AlwaysSound(n: Named) {
    forall run :: Legal(n, run) ==> CloseIsSound(After(n, run))
  }

  /**
   The close guarantee for named threads: after any past without a close, every interleaving of the
   calls that follow the store of the flag is sound if and only if no acquire is in flight at that moment.
   */
  lemma NamedCloseSoundIff(past: seq<(Counted.Step, Thread)>)
    requires Legal(INIT, past) && !After(INIT, past).closeRequested
    ensures var n := After(INIT, past);
            !AcquireInFlight(n) <==> AlwaysSound(Do(n, Counted.CloseStore, n.next))
  {
    var n := After(INIT, past);
    EveryPlaceEmpty(INIT);
    NamedCounts(INIT, past);
    PlaceIsEmpty(n, Checked);
    PlaceIsEmpty(n, Counted);
    PlaceIsEmpty(n, Refused);
    assert AcquireInFlight(n) <==> !Counted.NoAcquireInFlight(Forget(n));
    NamedStepIsCounted(n, Counted.CloseStore, n.next);
    if AcquireInFlight(n) {
      LosingRun(Do(n, Counted.CloseStore, n.next));
    } else {
      SafeRuns(Do(n, Counted.CloseStore, n.next));
    }
  }

  lemma SafeRuns(c: Named)
    requires Fresh(c) && Counted.Closing(Forget(c))
    ensures AlwaysSound(c)
  {
    forall run | Legal(c, run) ensures CloseIsSound(After(c, run)) { NamedRunIsSound(c, run); }
  }

  lemma LosingRun(c: Named)
    requires Fresh(c) && Counted.Counts(Forget(c)) && c.closeRequested && !c.cancelled
    requires !Counted.NoAcquireInFlight(Forget(c))
    requires Forget(c).dropCancels == 0 && Forget(c).closeCancels == 0
    ensures !AlwaysSound(c)
  {
    var steps := Counted.CloseCanBeLost(Forget(c));
    var run := NameRun(c, steps);
    EveryPlaceEmpty(After(c, run));
    assert !CloseIsSound(After(c, run));
  }

  lemma {:induction false} NameRun(n: Named, steps: seq<Counted.Step>) returns (run: seq<(Counted.Step, Thread)>)
    requires Fresh(n) && Counted.Legal(Forget(n), steps)
    ensures Legal(n, run) && Forget(After(n, run)) == Counted.After(Forget(n), steps)
    decreases |steps|
  {
    if steps == [] {
      run := [];
    } else {
      var t := CountedStepIsNamed(n, steps[0]);
      NamedStepIsCounted(n, steps[0], t);
      var rest := NameRun(Do(n, steps[0], t), steps[1..]);
      run := [(steps[0], t)] + rest;
      assert run[1..] == rest;
    }
  }
}
