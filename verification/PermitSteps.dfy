/**
 The metered permit dealer under concurrency, with named callers and permits: one step per atomic
 operation or supplier call, sequentially consistent, any interleaving.
 */
module PermitSteps {
  import opened Common
  import opened Census

  type Caller = nat
  type Permit = nat

  /** Life of a permit, from the supplier's reservation to the end of its drop. */
  datatype Phase =
    | Reserved   // the supplier answered, nothing counted yet
    | Claimed    // counted as an unused claimant
    | Unused     // handed out
    | Used       // turned into a used permit
    | Dropping   // no longer an unused claimant, about to be released
    | Released   // released to the supplier, still counted as extant
    | Gone

  /** A caller inside an acquire: past the limit check, or building the permit it was given. */
  datatype Progress = Passed | Building(permit: Permit)

  datatype State = State(
    max: Option<nat>,             // `max_permits`
    callers: set<Caller>,
    busy: map<Caller, Progress>,
    permits: map<Permit, Phase>,
    next: Permit,
    unused: int,                  // `unused_claimants`
    extant: int,                  // `extant_permits`
    releases: seq<Permit>)        // calls to the supplier's `release_slot`, in order

  datatype Step =
    | Check(c: Caller)       // `wait_for` succeeds, or `try_acquire_owned` passes its check
    | Reserve(c: Caller)     // the supplier reserves a slot
    | NoSlot(c: Caller)      // the supplier has none, or the waiting acquire is cancelled
    | Claim(c: Caller)       // `unused_claimants += 1`
    | HandOut(c: Caller)     // `extant_permits += 1`, the permit is returned
    | Use(p: Permit)         // `into_used`
    | Drop(p: Permit)        // drop begins: an unused permit stops being a claimant
    | Release(p: Permit)     // drop goes on: `release_slot`
    | Uncount(p: Permit)     // drop ends: `extant_permits -= 1`

  predicate InPhase(s: State, p: Permit, phase: Phase) {
    p in s.permits && s.permits[p] == phase
  }

  predicate IsBuilding(s: State, c: Caller, phase: Phase) {
    c in s.busy && s.busy[c].Building? && InPhase(s, s.busy[c].permit, phase)
  }

  predicate Enabled(s: State, step: Step) {
    match step
    case Check(c) => c in s.callers && c !in s.busy && (s.max.Some? ==> s.extant < s.max.value)
    case Reserve(c) => c in s.busy && s.busy[c].Passed?
    case NoSlot(c) => c in s.busy && s.busy[c].Passed?
    case Claim(c) => IsBuilding(s, c, Reserved)
    case HandOut(c) => IsBuilding(s, c, Claimed)
    case Use(p) => InPhase(s, p, Unused)
    case Drop(p) => InPhase(s, p, Unused) || InPhase(s, p, Used)
    case Release(p) => InPhase(s, p, Dropping)
    case Uncount(p) => InPhase(s, p, Released)
  }

  function Do(s: State, step: Step): State
    requires Enabled(s, step)
  {
    match step
    case Check(c) => s.(busy := s.busy[c := Passed])
    case Reserve(c) =>
      s.(busy := s.busy[c := Building(s.next)], permits := s.permits[s.next := Reserved], next := s.next + 1)
    case NoSlot(c) => s.(busy := s.busy - {c})
    case Claim(c) => s.(permits := s.permits[s.busy[c].permit := Claimed], unused := s.unused + 1)
    case HandOut(c) =>
      s.(permits := s.permits[s.busy[c].permit := Unused], extant := s.extant + 1, busy := s.busy - {c})
    case Use(p) => s.(permits := s.permits[p := Used], unused := s.unused - 1)
    case Drop(p) =>
      s.(permits := s.permits[p := Dropping], unused := if s.permits[p] == Unused then s.unused - 1 else s.unused)
    case Release(p) => s.(permits := s.permits[p := Released], releases := s.releases + [p])
    case Uncount(p) => s.(permits := s.permits[p := Gone], extant := s.extant - 1)
  }

  predicate Legal(s: State, run: seq<Step>)
    decreases |run|
  {
    run == [] || (Enabled(s, run[0]) && Legal(Do(s, run[0]), run[1..]))
  }

  function After(s: State, run: seq<Step>): State
    requires Legal(s, run)
    decreases |run|
  {
    if run == [] then s else After(Do(s, run[0]), run[1..])
  }

  function Initial(max: Option<nat>, callers: set<Caller>): State {
    State(max, callers, map[], map[], 0, 0, 0, [])
  }

  // ----- Conservation -----

  /** Permits the dealer has handed out and not finished dropping. */
  function Extant(s: State): nat {
    Count(s.permits, Unused) + Count(s.permits, Used) + Count(s.permits, Dropping) + Count(s.permits, Released)
  }

  /** Permits claimed and neither used nor being dropped. */
  function Claimants(s: State): nat {
    Count(s.permits, Claimed) + Count(s.permits, Unused)
  }

  /** Each reservation whose drop has passed the release is in the log exactly once, and no other is. */
  ghost predicate ReleasedOnce(s: State) {
    && (forall i, j :: 0 <= i < j < |s.releases| ==> s.releases[i] != s.releases[j])
    && (forall p :: p in s.releases <==> InPhase(s, p, Released) || InPhase(s, p, Gone))
  }

  ghost predicate Conserved(s: State) {
    && s.extant == Extant(s)
    && s.unused == Claimants(s)
    && ReleasedOnce(s)
    && (forall p :: p in s.permits ==> p < s.next)
  }

  lemma MovePermit(s: State, p: Permit, phase: Phase)
    ensures var m := s.permits[p := phase];
            forall x :: Count(m, x) == Count(s.permits, x)
                                       + (if x == phase then 1 else 0) - (if InPhase(s, p, x) then 1 else 0)
  {
    forall x ensures Count(s.permits[p := phase], x) == Count(s.permits, x)
                       + (if x == phase then 1 else 0) - (if InPhase(s, p, x) then 1 else 0)
    {
      CountAfterUpdate(s.permits, p, phase, x);
    }
  }

  /** The permit a step moves, and where to. */
  function Moved(s: State, step: Step): Option<(Permit, Phase)>
    requires Enabled(s, step)
  {
    match step
    case Check(_) => None
    case NoSlot(_) => None
    case Reserve(_) => Some((s.next, Reserved))
    case Claim(c) => Some((s.busy[c].permit, Claimed))
    case HandOut(c) => Some((s.busy[c].permit, Unused))
    case Use(p) => Some((p, Used))
    case Drop(p) => Some((p, Dropping))
    case Release(p) => Some((p, Released))
    case Uncount(p) => Some((p, Gone))
  }

  lemma ReleasedOnceStep(s: State, step: Step)
    requires Conserved(s) && Enabled(s, step)
    ensures ReleasedOnce(Do(s, step))
  {
    var t := Do(s, step);
    if step.Release? {
      assert step.p !in s.releases;
      assert forall p :: p in t.releases <==> p in s.releases || p == step.p;
    }
  }

  lemma ConservedStep(s: State, step: Step)
    requires Conserved(s) && Enabled(s, step)
    ensures Conserved(Do(s, step))
  {
    var m := Moved(s, step);
    if m.Some? { MovePermit(s, m.value.0, m.value.1); }
    ReleasedOnceStep(s, step);
  }

  /** Conservation over every run; both counters are counts, so neither underflows. */
  lemma {:induction false} PermitsAreConserved(s: State, run: seq<Step>)
    requires Conserved(s) && Legal(s, run)
    ensures Conserved(After(s, run))
    ensures 0 <= After(s, run).unused && 0 <= After(s, run).extant
    decreases |run|
  {
    if run != [] {
      ConservedStep(s, run[0]);
      PermitsAreConserved(Do(s, run[0]), run[1..]);
    }
  }

  /** With no operation in progress the counters are the live permits and the live never-used permits. */
  lemma CountersAtRest(max: Option<nat>, callers: set<Caller>, run: seq<Step>)
    requires Legal(Initial(max, callers), run)
    requires var t := After(Initial(max, callers), run);
             forall p :: p in t.permits ==> t.permits[p].Unused? || t.permits[p].Used? || t.permits[p].Gone?
    ensures var t := After(Initial(max, callers), run);
            && t.extant == Count(t.permits, Unused) + Count(t.permits, Used)
            && t.unused == Count(t.permits, Unused)
            && |t.releases| == Count(t.permits, Gone)
  {
    var s := Initial(max, callers);
    assert Conserved(s) by { assert Count(s.permits, Unused) == 0; }
    PermitsAreConserved(s, run);
    var t := After(s, run);
    assert Group(t.permits, Claimed) == {};
    assert Group(t.permits, Dropping) == {};
    assert Group(t.permits, Released) == {};
    var gone := Group(t.permits, Gone);
    forall p ensures p in t.releases <==> p in gone {
      assert p in t.releases <==> InPhase(t, p, Released) || InPhase(t, p, Gone);
    }
    DistinctLength(t.releases, gone);
  }

  lemma {:induction false} DistinctLength(xs: seq<nat>, all: set<nat>)
    requires forall i, j :: 0 <= i < j < |xs| ==> xs[i] != xs[j]
    requires forall x :: x in xs <==> x in all
    ensures |xs| == |all|
  {
    if xs == [] {
      assert all == {};
    } else {
      var front, x := xs[..|xs| - 1], xs[|xs| - 1];
      assert xs == front + [x];
      assert x in all && x !in front;
      forall y ensures y in front <==> y in all - {x} { assert y in xs <==> y in front || y == x; }
      DistinctLength(front, all - {x});
    }
  }

  // ----- The limit -----

  /** The bound: one less than the limit before the last check, plus one permit for every caller. */
  function Bound(max: nat, callers: set<Caller>): nat {
    if max == 0 || callers == {} then 0 else max - 1 + |callers|
  }

  predicate WithinBound(s: State) {
    && s.busy.Keys <= s.callers
    && (s.max.Some? ==> s.extant + |s.busy| <= Bound(s.max.value, s.callers))
  }

  lemma CheckStaysWithinBound(s: State, c: Caller)
    requires WithinBound(s) && 0 <= s.extant && Enabled(s, Check(c))
    ensures WithinBound(Do(s, Check(c)))
  {
    var t := Do(s, Check(c));
    assert t.busy.Keys == s.busy.Keys + {c};
    assert |t.busy.Keys| == |s.busy.Keys| + 1;
    SubsetSize(t.busy.Keys, s.callers);
  }

  lemma WithinBoundStep(s: State, step: Step)
    requires WithinBound(s) && 0 <= s.extant && Enabled(s, step)
    ensures WithinBound(Do(s, step))
  {
    var t := Do(s, step);
    if step.Check? {
      CheckStaysWithinBound(s, step.c);
    } else if step.Reserve? {
      assert t.busy.Keys == s.busy.Keys;
    } else if step.NoSlot? || step.HandOut? {
      assert t.busy.Keys == s.busy.Keys - {step.c};
    }
  }

  lemma SubsetSize(a: set<nat>, b: set<nat>)
    requires a <= b
    ensures |a| <= |b|
  {
    assert b == a + (b - a);
  }

  /** Extant permits plus callers past the check never exceed the bound, in any interleaving. */
  lemma {:induction false} LimitUnderConcurrency(s: State, run: seq<Step>)
    requires Conserved(s) && WithinBound(s) && Legal(s, run)
    ensures WithinBound(After(s, run))
    ensures After(s, run).max == s.max && After(s, run).callers == s.callers
    decreases |run|
  {
    if run != [] {
      ConservedStep(s, run[0]);
      WithinBoundStep(s, run[0]);
      LimitUnderConcurrency(Do(s, run[0]), run[1..]);
    }
  }

  /** So a single caller never has more permits than the limit. */
  lemma SingleCallerKeepsLimit(max: nat, c: Caller, run: seq<Step>)
    requires Legal(Initial(Some(max), {c}), run)
    ensures After(Initial(Some(max), {c}), run).extant <= max
  {
    InitialIsGood(Some(max), {c});
    LimitUnderConcurrency(Initial(Some(max), {c}), run);
  }

  lemma InitialIsGood(max: Option<nat>, callers: set<Caller>)
    ensures Conserved(Initial(max, callers)) && WithinBound(Initial(max, callers))
  {
    var s := Initial(max, callers);
    assert Count(s.permits, Unused) == 0;
  }

  // ----- The bound is reached -----

  lemma Prepend(s: State, step: Step, run: seq<Step>)
    requires Enabled(s, step) && Legal(Do(s, step), run)
    ensures Legal(s, [step] + run) && After(s, [step] + run) == After(Do(s, step), run)
  {
    assert ([step] + run)[1..] == run;
  }

  lemma {:induction false} Concatenate(s: State, run: seq<Step>, more: seq<Step>)
    requires Legal(s, run) && Legal(After(s, run), more)
    ensures Legal(s, run + more) && After(s, run + more) == After(After(s, run), more)
    decreases |run|
  {
    if run == [] {
      assert run + more == more;
    } else {
      Concatenate(Do(s, run[0]), run[1..], more);
      assert (run + more)[1..] == run[1..] + more;
    }
  }

  /** `t` differs from `s` by `more` extant permits; the limit and the callers are the same. */
  predicate Gained(s: State, t: State, more: nat) {
    t.max == s.max && t.callers == s.callers && t.extant == s.extant + more
  }

  /** A caller past the check is served: three steps, one more extant permit, the caller is idle again. */
  lemma Serve(s: State, c: Caller) returns (run: seq<Step>)
    requires c in s.busy && s.busy[c].Passed?
    ensures Legal(s, run) && Gained(s, After(s, run), 1) && After(s, run).busy == s.busy - {c}
  {
    var s1 := Do(s, Reserve(c));
    var s2 := Do(s1, Claim(c));
    var s3 := Do(s2, HandOut(c));
    Prepend(s2, HandOut(c), []);
    Prepend(s1, Claim(c), [HandOut(c)] + []);
    Prepend(s, Reserve(c), [Claim(c)] + ([HandOut(c)] + []));
    run := [Reserve(c)] + ([Claim(c)] + ([HandOut(c)] + []));
    assert s3.busy == s.busy - {c};
  }

  /** One idle caller takes `k` permits one after the other. */
  lemma {:induction false} TakeAlone(s: State, c: Caller, k: nat) returns (run: seq<Step>)
    requires s.max.Some? && c in s.callers && s.busy == map[] && s.extant + k <= s.max.value
    ensures Legal(s, run) && Gained(s, After(s, run), k) && After(s, run).busy == map[]
    decreases k
  {
    run := [];
    if k > 0 {
      var s1 := Do(s, Check(c));
      var serve := Serve(s1, c);
      Prepend(s, Check(c), serve);
      var first := [Check(c)] + serve;
      assert s1.busy - {c} == map[];
      var rest := TakeAlone(After(s, first), c, k - 1);
      Concatenate(s, first, rest);
      run := first + rest;
    }
  }

  /** All callers in `todo` pass the check while the count stands still. */
  lemma {:induction false} AllPass(s: State, todo: set<Caller>) returns (run: seq<Step>)
    requires s.max.Some? && s.extant < s.max.value && todo <= s.callers && todo !! s.busy.Keys
    ensures Legal(s, run) && Gained(s, After(s, run), 0)
    ensures After(s, run).busy == s.busy + map c | c in todo :: Passed
    decreases |todo|
  {
    if todo == {} {
      run := [];
      assert s.busy == s.busy + map c | c in todo :: Passed;
    } else {
      var c :| c in todo;
      var s1 := Do(s, Check(c));
      var rest := AllPass(s1, todo - {c});
      Prepend(s, Check(c), rest);
      run := [Check(c)] + rest;
      assert s1.busy + (map x | x in todo - {c} :: Passed) == s.busy + map x | x in todo :: Passed;
    }
  }

  /** Everyone past the check is served. */
  lemma {:induction false} AllServed(s: State) returns (run: seq<Step>)
    requires forall c :: c in s.busy ==> s.busy[c].Passed?
    ensures Legal(s, run) && Gained(s, After(s, run), |s.busy|)
    decreases |s.busy|
  {
    if s.busy == map[] {
      run := [];
    } else {
      var c :| c in s.busy;
      var first := Serve(s, c);
      assert (s.busy - {c}).Keys == s.busy.Keys - {c};
      var rest := AllServed(After(s, first));
      Concatenate(s, first, rest);
      run := first + rest;
    }
  }

  /** The bound is exact: for every limit and every set of callers some interleaving reaches it. */
  lemma BoundIsReached(max: nat, callers: set<Caller>) returns (run: seq<Step>)
    requires max > 0 && callers != {}
    ensures Legal(Initial(Some(max), callers), run)
    ensures After(Initial(Some(max), callers), run).extant == Bound(max, callers)
  {
    var s := Initial(Some(max), callers);
    var c :| c in callers;
    var alone := TakeAlone(s, c, max - 1);
    var t := After(s, alone);
    var pass := AllPass(t, callers);
    Concatenate(s, alone, pass);
    var u := After(s, alone + pass);
    assert u.busy.Keys == callers;
    var serve := AllServed(u);
    Concatenate(s, alone + pass, serve);
    run := alone + pass + serve;
  }

  /** The documented limit holds in every interleaving exactly when at most one caller acquires. */
  lemma LimitHoldsIffSingleCaller(max: nat, callers: set<Caller>)
    requires max > 0
    ensures |callers| <= 1 <==>
            forall run :: Legal(Initial(Some(max), callers), run) ==>
                            After(Initial(Some(max), callers), run).extant <= max
  {
    var s := Initial(Some(max), callers);
    InitialIsGood(Some(max), callers);
    if |callers| <= 1 {
      forall run | Legal(s, run) ensures After(s, run).extant <= max { LimitUnderConcurrency(s, run); }
    } else {
      var run := BoundIsReached(max, callers);
    }
  }
}
