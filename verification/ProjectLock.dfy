/**
 * The per-project transaction lock: a Redis key with an expiry, taken with `SET NX PX`, released by a GET and a DEL.
 */
module ProjectLock {
  import opened Wrappers

  const EXPIRY_MS := 10000
  const WAIT_MS := 5000

  /** Where a call of `withProjectLock` is; its token is the call's own id. */
  datatype Phase =
    | Waiting(deadline: nat)
    | Inside(since: nat)
    | Releasing(since: nat, sawOwnToken: bool)
    | Done
    | Rejected

  datatype Key = Key(token: nat, expiresAt: nat)

  datatype State = State(now: nat, key: Option<Key>, calls: map<nat, Phase>)

  /** One atomic step: of a call, or of the clock. */
  datatype Step =
    | Arrive(call: nat)
    | TryAcquire(call: nat)
    | ReadToken(call: nat)
    | Delete(call: nat)
    | Tick(ms: nat)

  const INITIAL := State(0, None, map[])

  /** What Redis answers to a GET: an expired key is gone. */
  function Held(s: State): Option<nat> {
    if s.key.Some? && s.now < s.key.value.expiresAt then Some(s.key.value.token) else None
  }

  predicate Enabled(s: State, step: Step) {
    match step
    case Arrive(c) => c !in s.calls
    case TryAcquire(c) => c in s.calls && s.calls[c].Waiting?
    case ReadToken(c) => c in s.calls && s.calls[c].Inside?
    case Delete(c) => c in s.calls && s.calls[c].Releasing?
    case Tick(_) => true
  }

  /** A step that is not possible now changes nothing. */
  function Next(s: State, step: Step): State {
    if !Enabled(s, step) then s else
    match step
    case Arrive(c) => s.(calls := s.calls[c := Waiting(s.now + WAIT_MS)])
    case TryAcquire(c) =>
      if Held(s).None? then s.(key := Some(Key(c, s.now + EXPIRY_MS)), calls := s.calls[c := Inside(s.now)])
      else if s.now >= s.calls[c].deadline then s.(calls := s.calls[c := Rejected])
      else s
    case ReadToken(c) => s.(calls := s.calls[c := Releasing(s.calls[c].since, Held(s) == Some(c))])
    case Delete(c) =>
      s.(key := if s.calls[c].sawOwnToken then None else s.key, calls := s.calls[c := Done])
    case Tick(ms) => s.(now := s.now + ms)
  }

  function After(steps: seq<Step>): State {
    if steps == [] then INITIAL else Next(After(steps[..|steps| - 1]), steps[|steps| - 1])
  }

  predicate HasLock(p: Phase) {
    p.Inside? || p.Releasing?
  }

  /** Every holder is still within the expiry of its key. */
  ghost predicate IsTimely(s: State) {
    forall c :: c in s.calls && HasLock(s.calls[c]) ==> s.now < s.calls[c].since + 10000
  }

  ghost predicate IsTimelyRun(steps: seq<Step>) {
    IsTimely(After(steps)) && (steps != [] ==> IsTimelyRun(steps[..|steps| - 1]))
  }

  /** A call that has entered and not yet left owns the key, and its GET has told it so. */
  ghost predicate OwnersHoldKey(s: State) {
    forall c :: c in s.calls && HasLock(s.calls[c]) ==>
      && s.key == Some(Key(c, s.calls[c].since + 10000))
      && (s.calls[c].Releasing? ==> s.calls[c].sawOwnToken)
  }

  lemma {:induction false} RunOwnersHoldKey(steps: seq<Step>)
    requires IsTimelyRun(steps)
    ensures OwnersHoldKey(After(steps))
  {
    if steps != [] {
      RunOwnersHoldKey(steps[..|steps| - 1]);
      assert IsTimely(After(steps[..|steps| - 1]));
    }
  }

  /**
   * In every run, with any number of calls and any clock, in which holders finish within the expiry: at most one call
   * is between acquiring and releasing, and a DEL only ever removes the deleting call's own key.
   */
  lemma MutualExclusion(steps: seq<Step>, a: nat, b: nat)
    requires IsTimelyRun(steps)
    ensures var s := After(steps);
      a in s.calls && b in s.calls && HasLock(s.calls[a]) && HasLock(s.calls[b]) ==> a == b
    ensures var s := After(steps);
      a in s.calls && s.calls[a].Releasing? ==> s.calls[a].sawOwnToken && s.key.Some? && s.key.value.token == a
  {
    RunOwnersHoldKey(steps);
  }

  /** While somebody is inside, no other call gets in: it waits, or after five seconds it is rejected. */
  lemma OthersStayOut(steps: seq<Step>, a: nat, b: nat)
    requires IsTimelyRun(steps)
    requires var s := After(steps); a in s.calls && HasLock(s.calls[a]) && b in s.calls && s.calls[b].Waiting?
    ensures var s := After(steps);
      Next(s, TryAcquire(b)).calls[b] == if s.now >= s.calls[b].deadline then Rejected else s.calls[b]
  {
    RunOwnersHoldKey(steps);
  }

  lemma AfterSnoc(steps: seq<Step>, step: Step)
    ensures After(steps + [step]) == Next(After(steps), step)
  {
    assert (steps + [step])[..|steps|] == steps;
  }

  // ----- Coming, waiting and going

  /** An unexpired key is that of a call inside, which its GET has told so. */
  ghost predicate KeyIsHeld(s: State) {
    Held(s).Some? ==>
      var c := Held(s).value;
      && c in s.calls && HasLock(s.calls[c]) && s.key.value.expiresAt == s.calls[c].since + 10000
      && (s.calls[c].Releasing? ==> s.calls[c].sawOwnToken)
  }

  lemma {:induction false} RunKeyIsHeld(steps: seq<Step>)
    ensures KeyIsHeld(After(steps))
  {
    if steps != [] {
      RunKeyIsHeld(steps[..|steps| - 1]);
    }
  }

  /** When nobody is inside, whoever tries gets in, and has the key for ten seconds. */
  lemma FreeLockIsTaken(steps: seq<Step>, b: nat)
    requires var s := After(steps); b in s.calls && s.calls[b].Waiting?
    requires forall c :: c in After(steps).calls ==> !HasLock(After(steps).calls[c])
    ensures var s, t := After(steps), After(steps + [TryAcquire(b)]);
      t.calls[b] == Inside(s.now) && t.key == Some(Key(b, s.now + 10000)) && t.now == s.now
  {
    RunKeyIsHeld(steps);
    AfterSnoc(steps, TryAcquire(b));
  }

  /** A call that leaves in time leaves the lock free. */
  lemma LeavingFreesTheLock(steps: seq<Step>, a: nat)
    requires IsTimelyRun(steps) && a in After(steps).calls && After(steps).calls[a].Inside?
    ensures var t := After(steps + [ReadToken(a)] + [Delete(a)]);
      t.key == None && forall c :: c in t.calls ==> !HasLock(t.calls[c])
  {
    RunOwnersHoldKey(steps);
    AfterSnoc(steps, ReadToken(a));
    AfterSnoc(steps + [ReadToken(a)], Delete(a));
  }

  /** A call that leaves late, and reads another call's token, leaves that call its key. */
  lemma LateReaderSparesTheKey(steps: seq<Step>, c: nat, d: nat)
    requires c in After(steps).calls && After(steps).calls[c].Inside? && c != d && Held(After(steps)) == Some(d)
    ensures var t := After(steps + [ReadToken(c)] + [Delete(c)]);
      t.key == After(steps).key && Held(t) == Some(d) && c in t.calls && t.calls[c] == Done
  {
    AfterSnoc(steps, ReadToken(c));
    AfterSnoc(steps + [ReadToken(c)], Delete(c));
  }

  /** The time at which a call has come. */
  ghost function ArrivalOf(steps: seq<Step>, c: nat): nat {
    if steps == [] then 0
    else if steps[|steps| - 1] == Arrive(c) && c !in After(steps[..|steps| - 1]).calls then
      After(steps[..|steps| - 1]).now
    else ArrivalOf(steps[..|steps| - 1], c)
  }

  /** A call waits for five seconds from its arrival on, and is rejected no sooner. */
  lemma {:induction false} WaitsFiveSeconds(steps: seq<Step>, c: nat)
    requires c in After(steps).calls
    ensures var s := After(steps);
      && ArrivalOf(steps, c) <= s.now
      && (s.calls[c].Waiting? ==> s.calls[c].deadline == ArrivalOf(steps, c) + 5000)
      && (s.calls[c].Rejected? ==> s.now >= ArrivalOf(steps, c) + 5000)
  {
    var before := After(steps[..|steps| - 1]);
    if c in before.calls {
      WaitsFiveSeconds(steps[..|steps| - 1], c);
    }
  }

  // ----- Holders that outstay the expiry

  predicate Overstays(s: State, c: nat) {
    c in s.calls && HasLock(s.calls[c]) && s.now >= s.calls[c].since + 10000
  }

  /** At most one call is inside. */
  ghost predicate IsExclusive(s: State) {
    forall a, b :: a in s.calls && b in s.calls && HasLock(s.calls[a]) && HasLock(s.calls[b]) ==> a == b
  }

  /** A call that arrives and tries once. */
  function Newcomer(d: nat): seq<Step> {
    [Arrive(d), TryAcquire(d)]
  }

  lemma AfterNewcomer(steps: seq<Step>, d: nat)
    ensures After(steps + Newcomer(d)) == Next(Next(After(steps), Arrive(d)), TryAcquire(d))
  {
    assert steps + Newcomer(d) == steps + [Arrive(d)] + [TryAcquire(d)];
    AfterSnoc(steps, Arrive(d));
    AfterSnoc(steps + [Arrive(d)], TryAcquire(d));
  }

  /**
   * In every run, a holder past the expiry of its key shares the lock: with another holder, or with the next to come.
   */
  lemma OverstayerShares(steps: seq<Step>, c: nat, d: nat)
    requires Overstays(After(steps), c) && d !in After(steps).calls
    ensures !IsExclusive(After(steps)) || !IsExclusive(After(steps + Newcomer(d)))
  {
    var s, t := After(steps), After(steps + Newcomer(d));
    RunKeyIsHeld(steps);
    AfterNewcomer(steps, d);
    if Held(s).Some? {
      assert Held(s).value != c && HasLock(s.calls[Held(s).value]);
    } else {
      assert t.calls[c] == s.calls[c] && t.calls[d] == Inside(s.now);
    }
  }

  lemma TimelyNewcomer(steps: seq<Step>, d: nat)
    requires OwnersHoldKey(After(steps)) && IsTimely(After(steps)) && d !in After(steps).calls
    ensures IsExclusive(After(steps + Newcomer(d)))
  {
    AfterNewcomer(steps, d);
  }

  /** At no time are two calls inside, nor would they be if one more call came. */
  ghost predicate StaysExclusive(steps: seq<Step>) {
    && IsExclusive(After(steps))
    && (forall d :: d !in After(steps).calls ==> IsExclusive(After(steps + Newcomer(d))))
    && (steps != [] ==> StaysExclusive(steps[..|steps| - 1]))
  }

  lemma {:induction false} SomeoneElse(calls: set<nat>) returns (d: nat)
    ensures forall c :: c in calls ==> c < d
    decreases calls
  {
    if calls == {} {
      d := 0;
    } else {
      var c :| c in calls;
      var rest := SomeoneElse(calls - {c});
      assert forall x :: x in calls ==> x == c || x in calls - {c};
      d := if c < rest then rest else c + 1;
    }
  }

  /** The lock excludes, whoever comes at whatever time, exactly in the runs in which no holder outstays the expiry. */
  lemma {:induction false} ExclusionIsTimeliness(steps: seq<Step>)
    ensures IsTimelyRun(steps) <==> StaysExclusive(steps)
  {
    if steps != [] {
      ExclusionIsTimeliness(steps[..|steps| - 1]);
    }
    if IsTimelyRun(steps) {
      RunOwnersHoldKey(steps);
      forall d | d !in After(steps).calls
        ensures IsExclusive(After(steps + Newcomer(d)))
      {
        TimelyNewcomer(steps, d);
      }
    } else if !IsTimely(After(steps)) {
      var c :| c in After(steps).calls && HasLock(After(steps).calls[c]) && Overstays(After(steps), c);
      var d := SomeoneElse(After(steps).calls.Keys);
      OverstayerShares(steps, c, d);
    }
  }

  /**
   * If such a holder has already read its own token, its DEL takes away the key of the call that came after it, and
   * then two calls are inside that are both within their time.
   */
  lemma LateDeleteFreesTheLock(steps: seq<Step>, c: nat, d: nat, e: nat)
    requires
      var s := After(steps); Overstays(s, c) && s.calls[c].Releasing? && s.calls[c].sawOwnToken && Held(s) == None
    requires d !in After(steps).calls && e !in After(steps).calls && d != e
    ensures
      var t := After(steps + Newcomer(d) + [Delete(c)] + Newcomer(e));
      && d in t.calls && e in t.calls && HasLock(t.calls[d]) && HasLock(t.calls[e]) && !Overstays(t, d)
      && !Overstays(t, e)
  {
    AfterNewcomer(steps, d);
    AfterSnoc(steps + Newcomer(d), Delete(c));
    AfterNewcomer(steps + Newcomer(d) + [Delete(c)], e);
  }

  /** Such a run: both calls are inside, the second one holds the key, and the first one is about to delete it. */
  lemma OverstayingBreaksTheLock()
    ensures exists steps :: LosesLock(steps, 1, 2)
  {
    var s4 := FirstInside();
    var s5 := s4 + [Tick(10000)];
    var s6 := s5 + [TryAcquire(2)];
    AfterSnoc(s4, Tick(10000));
    AfterSnoc(s5, TryAcquire(2));
    AfterSnoc(s6, Delete(1));
    assert LosesLock(s6, 1, 2);
  }

  /** The first of two calls is inside, and has read its own token. */
  lemma FirstInside() returns (steps: seq<Step>)
    ensures After(steps) ==
      State(0, Some(Key(1, 10000)), map[1 := Releasing(0, true), 2 := Waiting(5000)])
  {
    var s1, s2 := [] + [Arrive(1)], [] + [Arrive(1)] + [Arrive(2)];
    var s3 := s2 + [TryAcquire(1)];
    steps := s3 + [ReadToken(1)];
    AfterSnoc([], Arrive(1));
    AfterSnoc(s1, Arrive(2));
    AfterSnoc(s2, TryAcquire(1));
    AfterSnoc(s3, ReadToken(1));
  }

  /** Both calls are inside, the second one holds the key, and the first one is about to delete it. */
  predicate LosesLock(steps: seq<Step>, a: nat, b: nat) {
    var s := After(steps);
    && a in s.calls && b in s.calls && a != b && HasLock(s.calls[a]) && HasLock(s.calls[b])
    && Held(s) == Some(b) && Held(After(steps + [Delete(a)])) == None
  }
}
