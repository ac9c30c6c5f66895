/**
 The permit dealer and its closable wrapper with each call atomic: the objects themselves, and what
 every sequence of calls keeps. In this reading the close token is exact.
 */
module PermitCalls {
  import opened Common

  type Permit = nat

  /** `MeteredPermitDealer` and its live permits; a permit maps to whether it is still an unused claimant. */
  datatype Dealer = Dealer(
    max: Option<nat>,
    unused: int,
    extant: int,
    live: map<Permit, bool>,
    next: Permit,
    releases: seq<Permit>)

  /** `ClosableMeteredPermitDealer`; `tracked` are the permits still wrapped in a tracking guard. */
  datatype Closable = Closable(
    dealer: Dealer,
    outstanding: int,
    closeRequested: bool,
    cancelled: bool,
    tracked: set<Permit>)

  // ----- What each call does -----

  predicate CanAcquire(d: Dealer, hasSlot: bool) {
    (d.max.Some? ==> d.extant < d.max.value) && hasSlot
  }

  function Acquired(d: Dealer): Dealer {
    d.(unused := d.unused + 1, extant := d.extant + 1, live := d.live[d.next := true], next := d.next + 1)
  }

  function Used(d: Dealer, p: Permit): Dealer
    requires p in d.live
  {
    d.(unused := if d.live[p] then d.unused - 1 else d.unused, live := d.live[p := false])
  }

  function Dropped(d: Dealer, p: Permit): Dealer
    requires p in d.live
  {
    d.(unused := if d.live[p] then d.unused - 1 else d.unused, extant := d.extant - 1,
       live := d.live - {p}, releases := d.releases + [p])
  }

  function Closed(c: Closable): Closable {
    c.(closeRequested := true, cancelled := c.cancelled || c.outstanding == 0)
  }

  function TrackedAcquire(c: Closable, hasSlot: bool): Closable {
    if c.closeRequested || !CanAcquire(c.dealer, hasSlot) then c
    else c.(dealer := Acquired(c.dealer), outstanding := c.outstanding + 1, tracked := c.tracked + {c.dealer.next})
  }

  /** The tracking guard goes, by a drop or by conversion into a plain permit. */
  function Untracked(c: Closable, p: Permit): Closable {
    c.(outstanding := c.outstanding - 1, tracked := c.tracked - {p},
       cancelled := c.cancelled || (c.closeRequested && c.outstanding == 1))
  }

  // ----- What every sequence of calls keeps -----

  /** The permits that are still unused claimants. */
  function UnusedLive(d: Dealer): set<Permit> {
    set p | p in d.live && d.live[p]
  }

  /** Counters are counts; every reservation ever made is live or was released, exactly once. */
  ghost predicate DealerOk(d: Dealer) {
    && d.extant == |d.live|
    && d.unused == |UnusedLive(d)|
    && (d.max.Some? ==> d.extant <= d.max.value)
    && LedgerOk(d)
  }

  ghost predicate LedgerOk(d: Dealer) {
    && (forall p: Permit :: p < d.next <==> p in d.live || p in d.releases)
    && (forall p :: p in d.live ==> p !in d.releases)
    && (forall i, j :: 0 <= i < j < |d.releases| ==> d.releases[i] != d.releases[j])
  }

  /** The token is cancelled exactly when close was requested and nothing is outstanding. */
  ghost predicate ClosableOk(c: Closable) {
    && DealerOk(c.dealer)
    && c.tracked <= c.dealer.live.Keys
    && c.outstanding == |c.tracked|
    && (c.cancelled <==> c.closeRequested && c.outstanding == 0)
  }

  /** A permit is granted exactly when the supplier has a slot and fewer permits are live than the limit allows. */
  lemma GrantedIff(d: Dealer, hasSlot: bool)
    requires DealerOk(d)
    ensures CanAcquire(d, hasSlot) <==> hasSlot && (d.max.None? || |d.live| < d.max.value)
  {
  }

  lemma AcquiredLedger(d: Dealer)
    requires LedgerOk(d)
    ensures LedgerOk(Acquired(d)) && d.next !in d.live
  {
  }

  lemma AcquiredIsOk(d: Dealer)
    requires DealerOk(d) && CanAcquire(d, true)
    ensures DealerOk(Acquired(d)) && d.next !in d.live && Acquired(d).live.Keys == d.live.Keys + {d.next}
  {
    AcquiredLedger(d);
    assert UnusedLive(Acquired(d)) == UnusedLive(d) + {d.next};
    assert Acquired(d).live.Keys == d.live.Keys + {d.next};
  }

  lemma UsedIsOk(d: Dealer, p: Permit)
    requires DealerOk(d) && p in d.live
    ensures DealerOk(Used(d, p)) && Used(d, p).live.Keys == d.live.Keys
  {
    assert UnusedLive(Used(d, p)) == UnusedLive(d) - {p};
    assert Used(d, p).live.Keys == d.live.Keys;
  }

  lemma DroppedIsOk(d: Dealer, p: Permit)
    requires DealerOk(d) && p in d.live
    ensures DealerOk(Dropped(d, p))
  {
    assert UnusedLive(Dropped(d, p)) == UnusedLive(d) - {p};
    assert Dropped(d, p).live.Keys == d.live.Keys - {p};
  }

  class MeteredPermitDealer {
    const maxPermits: Option<nat>
    var unusedClaimants: int
    var extantPermits: int
    var live: map<Permit, bool>
    var next: Permit
    var releases: seq<Permit>

    ghost function State(): Dealer
      reads this
    {
      Dealer(maxPermits, unusedClaimants, extantPermits, live, next, releases)
    }

    constructor (max: Option<nat>)
      ensures State() == Dealer(max, 0, 0, map[], 0, []) && DealerOk(State())
    {
      maxPermits, unusedClaimants, extantPermits, live, next, releases := max, 0, 0, map[], 0, [];
    }

    /** `hasSlot` is the answer of the slot supplier, if it is asked. */
    method TryAcquireOwned(hasSlot: bool) returns (r: Option<Permit>)
      requires DealerOk(State())
      modifies this
      ensures DealerOk(State())
      ensures r.Some? <==> hasSlot && (maxPermits.None? || |old(live)| < maxPermits.value)
      ensures State() == if r.Some? then Acquired(old(State())) else old(State())
      ensures r.Some? ==> r.value == old(next)
    {
      if maxPermits.Some? && extantPermits >= maxPermits.value { return None; }
      if !hasSlot { return None; }
      AcquiredIsOk(State());
      unusedClaimants := unusedClaimants + 1;
      extantPermits := extantPermits + 1;
      r := Some(next);
      live, next := live[next := true], next + 1;
    }

    method IntoUsed(p: Permit)
      requires DealerOk(State()) && p in live
      modifies this
      ensures DealerOk(State()) && State() == Used(old(State()), p)
    {
      UsedIsOk(State(), p);
      if live[p] { unusedClaimants := unusedClaimants - 1; }
      live := live[p := false];
    }

    method DropPermit(p: Permit)
      requires DealerOk(State()) && p in live
      modifies this
      ensures DealerOk(State()) && State() == Dropped(old(State()), p)
    {
      DroppedIsOk(State(), p);
      if live[p] { unusedClaimants := unusedClaimants - 1; }
      releases := releases + [p];
      extantPermits := extantPermits - 1;
      live := live - {p};
    }
  }

  class ClosableMeteredPermitDealer {
    const inner: MeteredPermitDealer
    var outstandingPermits: int
    var closeRequested: bool
    var closeComplete: bool
    var tracked: set<Permit>

    ghost function State(): Closable
      reads this, inner
    {
      Closable(inner.State(), outstandingPermits, closeRequested, closeComplete, tracked)
    }

    constructor (inner: MeteredPermitDealer)
      requires DealerOk(inner.State())
      ensures this.inner == inner && ClosableOk(State())
      ensures State() == Closable(inner.State(), 0, false, false, {})
    {
      this.inner := inner;
      outstandingPermits, closeRequested, closeComplete, tracked := 0, false, false, {};
    }

    method Close()
      requires ClosableOk(State())
      modifies this
      ensures ClosableOk(State()) && State() == Closed(old(State()))
    {
      closeRequested := true;
      if outstandingPermits == 0 { closeComplete := true; }
    }

    method TryAcquireOwned(hasSlot: bool) returns (r: Option<Permit>)
      requires ClosableOk(State())
      modifies this, inner
      ensures ClosableOk(State()) && State() == TrackedAcquire(old(State()), hasSlot)
      ensures r.Some? <==> !old(closeRequested) && hasSlot
                           && (inner.maxPermits.None? || |old(inner.live)| < inner.maxPermits.value)
      ensures r.Some? ==> r.value in tracked && r.value !in old(tracked)
    {
      if closeRequested { return None; }
      outstandingPermits := outstandingPermits + 1;
      r := inner.TryAcquireOwned(hasSlot);
      if r.None? {
        outstandingPermits := outstandingPermits - 1;
      } else {
        tracked := tracked + {r.value};
        assert inner.live.Keys == old(inner.live.Keys) + {r.value};
      }
    }

    /** The `on_drop` closure. */
    method OnPermitDropped(p: Permit)
      requires ClosableOk(State()) && p in tracked
      modifies this
      ensures ClosableOk(State()) && State() == Untracked(old(State()), p)
    {
      outstandingPermits := outstandingPermits - 1;
      tracked := tracked - {p};
      if closeRequested && outstandingPermits == 0 { closeComplete := true; }
    }

    /** Dropping a tracked permit: tracking ends, then the permit inside is dropped. */
    method DropTracked(p: Permit)
      requires ClosableOk(State()) && p in tracked
      modifies this, inner
      ensures ClosableOk(State())
      ensures State() == Untracked(old(State()), p).(dealer := Dropped(old(inner.State()), p))
    {
      OnPermitDropped(p);
      inner.DropPermit(p);
    }

    /** Converting into a plain permit: tracking ends once, the permit lives on. */
    method IntoOwned(p: Permit)
      requires ClosableOk(State()) && p in tracked
      modifies this
      ensures ClosableOk(State()) && State() == Untracked(old(State()), p)
      ensures p !in tracked && p in inner.live && inner.State() == old(inner.State())
    {
      OnPermitDropped(p);
    }
  }

  // ----- Runs of calls -----

  datatype Call =
    | Close
    | Acquire(hasSlot: bool)         // through the closable wrapper
    | AcquireInner(hasSlot: bool)    // through the shared inner dealer
    | DropTracked(p: Permit)
    | IntoOwned(p: Permit)
    | Use(p: Permit)
    | DropOwned(p: Permit)

  /** Ownership: only a tracked permit is dropped or converted as one, only an untracked one used or dropped plainly. */
  predicate Allowed(c: Closable, call: Call) {
    match call
    case DropTracked(p) => p in c.tracked && p in c.dealer.live
    case IntoOwned(p) => p in c.tracked && p in c.dealer.live
    case Use(p) => p !in c.tracked && p in c.dealer.live
    case DropOwned(p) => p !in c.tracked && p in c.dealer.live
    case _ => true
  }

  function Apply(c: Closable, call: Call): Closable
    requires Allowed(c, call)
  {
    match call
    case Close => Closed(c)
    case Acquire(hasSlot) => TrackedAcquire(c, hasSlot)
    case AcquireInner(hasSlot) => if CanAcquire(c.dealer, hasSlot) then c.(dealer := Acquired(c.dealer)) else c
    case DropTracked(p) => Untracked(c, p).(dealer := Dropped(c.dealer, p))
    case IntoOwned(p) => Untracked(c, p)
    case Use(p) => c.(dealer := Used(c.dealer, p))
    case DropOwned(p) => c.(dealer := Dropped(c.dealer, p))
  }

  lemma TrackedAcquireIsOk(c: Closable, hasSlot: bool)
    requires ClosableOk(c)
    ensures ClosableOk(TrackedAcquire(c, hasSlot))
  {
    if CanAcquire(c.dealer, hasSlot) { AcquiredIsOk(c.dealer); }
  }

  lemma UntrackedIsOk(c: Closable, p: Permit)
    requires ClosableOk(c) && p in c.tracked
    ensures ClosableOk(Untracked(c, p)) && p !in Untracked(c, p).tracked
  {
  }

  lemma DropOwnedIsOk(c: Closable, p: Permit)
    requires ClosableOk(c) && p !in c.tracked && p in c.dealer.live
    ensures ClosableOk(c.(dealer := Dropped(c.dealer, p)))
  {
    DroppedIsOk(c.dealer, p);
  }

  lemma CallKeepsOk(c: Closable, call: Call)
    requires ClosableOk(c) && Allowed(c, call)
    ensures ClosableOk(Apply(c, call))
  {
    match call {
      case Acquire(hasSlot) => TrackedAcquireIsOk(c, hasSlot);
      case AcquireInner(hasSlot) =>
        if CanAcquire(c.dealer, hasSlot) { AcquiredIsOk(c.dealer); }
      case DropTracked(p) =>
        UntrackedIsOk(c, p);
        DropOwnedIsOk(Untracked(c, p), p);
      case IntoOwned(p) => UntrackedIsOk(c, p);
      case Use(p) => UsedIsOk(c.dealer, p);
      case DropOwned(p) => DropOwnedIsOk(c, p);
      case Close =>
    }
  }

  predicate Legal(c: Closable, run: seq<Call>)
    decreases |run|
  {
    run == [] || (Allowed(c, run[0]) && Legal(Apply(c, run[0]), run[1..]))
  }

  function After(c: Closable, run: seq<Call>): Closable
    requires Legal(c, run)
    decreases |run|
  {
    if run == [] then c else After(Apply(c, run[0]), run[1..])
  }

  /**
   Over every sequence of calls: the token is exact, the limit holds, the counters are counts, every
   reservation is live or released once, and after a close no tracked permit ever appears again.
   */
  lemma {:induction false} CallsKeepOk(c: Closable, run: seq<Call>)
    requires ClosableOk(c) && Legal(c, run)
    ensures ClosableOk(After(c, run))
    ensures c.closeRequested ==> After(c, run).closeRequested && After(c, run).tracked <= c.tracked
    ensures c.cancelled ==> After(c, run).cancelled
    decreases |run|
  {
    if run != [] {
      CallKeepsOk(c, run[0]);
      CallsKeepOk(Apply(c, run[0]), run[1..]);
    }
  }

  // ----- The limit can be used up -----

  lemma Prepend(c: Closable, call: Call, run: seq<Call>)
    requires Allowed(c, call) && Legal(Apply(c, call), run)
    ensures Legal(c, [call] + run) && After(c, [call] + run) == After(Apply(c, call), run)
  {
    assert ([call] + run)[1..] == run;
  }

  /** An open wrapper hands out tracked permits as long as the limit leaves room. */
  lemma {:induction false} AcquireMore(c: Closable, n: nat) returns (run: seq<Call>)
    requires ClosableOk(c) && !c.closeRequested && (c.dealer.max.None? || |c.dealer.live| + n <= c.dealer.max.value)
    ensures Legal(c, run) && |After(c, run).dealer.live| == |c.dealer.live| + n
    ensures |After(c, run).tracked| == |c.tracked| + n && After(c, run).dealer.max == c.dealer.max
    decreases n
  {
    run := [];
    if n > 0 {
      var c' := Apply(c, Acquire(true));
      GrantedIff(c.dealer, true);
      AcquiredIsOk(c.dealer);
      CallKeepsOk(c, Acquire(true));
      run := AcquireMore(c', n - 1);
      Prepend(c, Acquire(true), run);
      run := [Acquire(true)] + run;
    }
  }

  /** For every limit some sequence of calls has exactly that many permits live, and then one more is refused. */
  lemma LimitIsReached(max: nat) returns (run: seq<Call>)
    ensures var c := Closable(Dealer(Some(max), 0, 0, map[], 0, []), 0, false, false, {});
            && Legal(c, run) && |After(c, run).dealer.live| == max
            && Apply(After(c, run), Acquire(true)) == After(c, run)
  {
    var c := Closable(Dealer(Some(max), 0, 0, map[], 0, []), 0, false, false, {});
    run := AcquireMore(c, max);
    CallsKeepOk(c, run);
  }
}
