/**
 The two readings of the permit dealer meet: a call whose steps are not interrupted does, in the
 machine of single steps, exactly what the call does in the call-atomic model.
 */
module PermitAtomicity {
  import opened Common
  import S = PermitSteps
  import C = PermitCalls
  import K = CloseSteps

  // ----- The dealer -----

  /** No call in progress: nobody is inside an acquire and every permit is live or gone. */
  ghost predicate AtRest(s: S.State) {
    && s.busy == map[]
    && forall p :: p in s.permits ==> s.permits[p].Unused? || s.permits[p].Used? || s.permits[p].Gone?
  }

  function Forget(s: S.State): C.Dealer {
    C.Dealer(s.max, s.unused, s.extant,
             map p | p in s.permits && (s.permits[p].Unused? || s.permits[p].Used?) :: s.permits[p].Unused?,
             s.next, s.releases)
  }

  /** At rest the limit check lets a caller pass exactly when the acquire call grants a permit. */
  lemma CheckPassesIffGranted(s: S.State, c: S.Caller)
    requires AtRest(s) && c in s.callers
    ensures S.Enabled(s, S.Check(c)) <==> C.CanAcquire(Forget(s), true)
  {
  }

  lemma AcquireIsAtomic(s: S.State, c: S.Caller) returns (run: seq<S.Step>)
    requires AtRest(s) && c in s.callers && S.Enabled(s, S.Check(c))
    requires forall p :: p in s.permits ==> p < s.next
    ensures S.Legal(s, run) && AtRest(S.After(s, run))
    ensures Forget(S.After(s, run)) == C.Acquired(Forget(s)) && C.CanAcquire(Forget(s), true)
  {
    var s1 := S.Do(s, S.Check(c));
    var s2 := S.Do(s1, S.Reserve(c));
    var s3 := S.Do(s2, S.Claim(c));
    var s4 := S.Do(s3, S.HandOut(c));
    run := [S.HandOut(c)];
    S.Prepend(s3, S.HandOut(c), []);
    assert [S.HandOut(c)] + [] == run;
    S.Prepend(s2, S.Claim(c), run);
    run := [S.Claim(c)] + run;
    S.Prepend(s1, S.Reserve(c), run);
    run := [S.Reserve(c)] + run;
    S.Prepend(s, S.Check(c), run);
    run := [S.Check(c)] + run;
    assert s4.permits == s.permits[s.next := S.Unused] && s4.busy == map[];
    assert Forget(s4).live == Forget(s).live[s.next := true];
  }

  /** A caller that passes the check but gets no slot from the supplier leaves everything as it was. */
  lemma RefusalIsAtomic(s: S.State, c: S.Caller) returns (run: seq<S.Step>)
    requires AtRest(s) && S.Enabled(s, S.Check(c))
    ensures S.Legal(s, run) && S.After(s, run) == s
  {
    var s1 := S.Do(s, S.Check(c));
    S.Prepend(s1, S.NoSlot(c), []);
    run := [S.NoSlot(c)] + [];
    assert s1.busy - {c} == s.busy;
    S.Prepend(s, S.Check(c), run);
    run := [S.Check(c)] + run;
  }

  lemma UseIsAtomic(s: S.State, p: S.Permit)
    requires AtRest(s) && S.InPhase(s, p, S.Unused)
    ensures AtRest(S.Do(s, S.Use(p)))
    ensures Forget(S.Do(s, S.Use(p))) == C.Used(Forget(s), p)
  {
    assert Forget(S.Do(s, S.Use(p))).live == Forget(s).live[p := false];
  }

  lemma DropIsAtomic(s: S.State, p: S.Permit) returns (run: seq<S.Step>)
    requires AtRest(s) && p in Forget(s).live
    ensures S.Legal(s, run) && AtRest(S.After(s, run))
    ensures Forget(S.After(s, run)) == C.Dropped(Forget(s), p)
  {
    var s1 := S.Do(s, S.Drop(p));
    var s2 := S.Do(s1, S.Release(p));
    var s3 := S.Do(s2, S.Uncount(p));
    run := [S.Uncount(p)];
    S.Prepend(s2, S.Uncount(p), []);
    assert [S.Uncount(p)] + [] == run;
    S.Prepend(s1, S.Release(p), run);
    run := [S.Release(p)] + run;
    S.Prepend(s, S.Drop(p), run);
    run := [S.Drop(p)] + run;
    assert s3.permits == s.permits[p := S.Gone];
    assert Forget(s3).live == Forget(s).live - {p};
  }

  // ----- The closable wrapper -----

  /** The step machine at rest and the wrapper's fields say the same. */
  ghost predicate Matches(s: K.State, c: C.Closable) {
    && K.Quiet(s)
    && s.outstanding == c.outstanding && s.closeRequested == c.closeRequested && s.cancelled == c.cancelled
    && s.tracked == |c.tracked|
  }

  /** The rest of a close once the flag is stored. */
  lemma FinishClose(s: K.State) returns (run: seq<K.Step>)
    requires s.closing == 1 && s.closeCancels == 0
    ensures K.Legal(s, run)
    ensures K.After(s, run) == s.(closing := 0, cancelled := s.cancelled || s.outstanding == 0)
  {
    run := [];
    if s.outstanding == 0 {
      K.Prepend(K.Do(s, K.CloseReadCount), K.CloseCancel, []);
      run := [K.CloseCancel] + [];
    }
    K.Prepend(s, K.CloseReadCount, run);
    run := [K.CloseReadCount] + run;
  }

  lemma CloseIsAtomic(s: K.State, c: C.Closable) returns (run: seq<K.Step>)
    requires Matches(s, c)
    ensures K.Legal(s, run) && Matches(K.After(s, run), C.Closed(c))
  {
    run := FinishClose(K.Do(s, K.CloseStore));
    K.Prepend(s, K.CloseStore, run);
    run := [K.CloseStore] + run;
  }

  /** A tracked acquire, granted or refused by the inner dealer, or turned away by the flag. */
  lemma TrackedAcquireIsAtomic(s: K.State, c: C.Closable, hasSlot: bool) returns (run: seq<K.Step>)
    requires Matches(s, c) && c.dealer.next !in c.tracked
    ensures K.Legal(s, run) && Matches(K.After(s, run), C.TrackedAcquire(c, hasSlot))
  {
    var s1 := K.Do(s, K.AcquireCheck);
    run := [];
    if !s.closeRequested {
      var s2 := K.Do(s1, K.AcquireCount);
      if C.CanAcquire(c.dealer, hasSlot) {
        K.Prepend(s2, K.AcquireGranted, []);
        run := [K.AcquireGranted] + [];
      } else {
        var s3 := K.Do(s2, K.AcquireRefused);
        K.Prepend(s3, K.AcquireUncount, []);
        K.Prepend(s2, K.AcquireRefused, [K.AcquireUncount] + []);
        run := [K.AcquireRefused] + ([K.AcquireUncount] + []);
      }
      K.Prepend(s1, K.AcquireCount, run);
      run := [K.AcquireCount] + run;
    }
    K.Prepend(s, K.AcquireCheck, run);
    run := [K.AcquireCheck] + run;
  }

  /** The rest of a drop once the permit has uncounted itself. */
  lemma FinishDrop(s: K.State) returns (run: seq<K.Step>)
    requires s.uncounted == 1 && s.sawClose == 0 && s.dropCancels == 0
    ensures K.Legal(s, run)
    ensures K.After(s, run) ==
            s.(uncounted := 0, cancelled := s.cancelled || (s.closeRequested && s.outstanding == 0))
  {
    var s1 := K.Do(s, K.DropReadFlag);
    run := [];
    if s.closeRequested {
      var s2 := K.Do(s1, K.DropReadCount);
      if s.outstanding == 0 {
        K.Prepend(s2, K.DropCancel, []);
        run := [K.DropCancel] + [];
      }
      K.Prepend(s1, K.DropReadCount, run);
      run := [K.DropReadCount] + run;
    }
    K.Prepend(s, K.DropReadFlag, run);
    run := [K.DropReadFlag] + run;
  }

  lemma UntrackIsAtomic(s: K.State, c: C.Closable, p: C.Permit) returns (run: seq<K.Step>)
    requires Matches(s, c) && p in c.tracked
    ensures K.Legal(s, run) && Matches(K.After(s, run), C.Untracked(c, p))
  {
    run := FinishDrop(K.Do(s, K.DropUncount));
    K.Prepend(s, K.DropUncount, run);
    run := [K.DropUncount] + run;
  }
}
