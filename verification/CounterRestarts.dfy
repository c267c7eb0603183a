/** The rate limiter beyond the end of a window: exactly when the checks of one window, late
    ones included, are allowed more often than the limit. */
module CounterRestarts {
  import opened Collections
  import opened RateWindows
  import opened RateLimiter

  ghost function WindowKey(tokenID: string, p: Period, t: int): string {
    CounterKey(tokenID, p, WindowOf(p, t).start)
  }

  /** Attempt i was handed a count of this counter, in time or late. */
  ghost predicate HoldsCount(s: State, key: string, i: nat) {
    i < |s.attempts| && HasCount(s.attempts[i]) && Key(s.attempts[i]) == key
  }

  /** The counts held, by attempt. */
  ghost function Tally(s: State, key: string): (m: map<nat, int>)
    ensures forall i :: i in m <==> HoldsCount(s, key, i)
    ensures forall i :: i in m ==> m[i] == CountOf(s, i)
  {
    map i: nat | i < |s.attempts| && HoldsCount(s, key, i) :: CountOf(s, i)
  }

  ghost function Value(s: State, key: string): Option<int> {
    if key in s.store then Some(s.store[key].value) else None
  }

  ghost function AllowedOf(s: State, key: string): set<nat> {
    set i | i in Tally(s, key) && Allowed(s, i)
  }

  /** The attempts that hold a count of a window's counter are those of its token, period and
      window. */
  lemma HeldIsWindow(s: State, tokenID: string, p: Period, t: int, i: nat)
    ensures HoldsCount(s, WindowKey(tokenID, p, t), i) <==>
            && i < |s.attempts| && HasCount(s.attempts[i])
            && s.attempts[i].request.tokenID == tokenID && s.attempts[i].request.period == p
            && WindowOf(p, s.attempts[i].phase.now) == WindowOf(p, t)
  {
    hide CounterKey, WindowOf;
    if HoldsCount(s, WindowKey(tokenID, p, t), i) {
      var a := s.attempts[i];
      KeyInjective(tokenID, p, t, a.request.tokenID, a.request.period, a.phase.now);
    }
  }

  /** The step is an INCR that takes effect on this counter. */
  ghost predicate Counts(s: State, step: Step, key: string) {
    && (step.Incr? || (step.IncrFails? && step.applied))
    && step.i < |s.attempts| && s.attempts[step.i].phase.Clocked? && Key(s.attempts[step.i]) == key
  }

  /** The counter is gone, some attempt still holds a count of it, and the step starts it
      again. */
  ghost predicate Restarts(s: State, step: Step, key: string) {
    Counts(s, step, key) && key !in s.store && exists i: nat :: HoldsCount(s, key, i)
  }

  /** The step counts without handing out the count, or ends an attempt that holds one. */
  ghost predicate Spoils(s: State, step: Step, key: string) {
    match step
    case IncrFails(_, _) => Counts(s, step, key)
    case ExpireFails(i, _) => HoldsCount(s, key, i)
    case Crash(i) => HoldsCount(s, key, i)
    case _ => false
  }

  /** Some step of the run restarts the counter. */
  ghost predicate Restarted(clock: int, steps: seq<Step>, key: string) {
    && steps != []
    && var front := steps[..|steps| - 1];
       Restarted(clock, front, key)
       || (After(clock, front).Some? && Restarts(After(clock, front).value, steps[|steps| - 1], key))
  }

  /** No step of the run spoils the counter. */
  ghost predicate Unspoiled(clock: int, steps: seq<Step>, key: string) {
    steps != [] ==>
      var front := steps[..|steps| - 1];
      && Unspoiled(clock, front, key)
      && (After(clock, front).Some? ==> !Spoils(After(clock, front).value, steps[|steps| - 1], key))
  }

  /** A counter restarts only after its window has ended. */
  lemma RestartsAreLate(s: State, step: Step, tokenID: string, p: Period, t: int)
    requires Good(s) && Restarts(s, step, WindowKey(tokenID, p, t))
    ensures WindowOf(p, t).end <= s.clock
  {
    hide CounterKey, WindowOf, OutlivesWindow;
    var key := WindowKey(tokenID, p, t);
    var i: nat :| HoldsCount(s, key, i);
    HeldIsWindow(s, tokenID, p, t, i);
    assert PhaseSane(s.clock, s.attempts[i]) && Covered(s, s.attempts[i]);
  }

  // ------------------------------------------------------------ tallies and their counter

  ghost predicate Within(a: map<nat, int>, b: map<nat, int>) {
    forall i :: i in a ==> i in b && a[i] == b[i]
  }

  /** No two attempts hold the same count, and none a larger one than the counter's value. */
  ghost predicate Distinct(m: map<nat, int>, value: Option<int>) {
    && (forall i, j :: i in m && j in m && i != j ==> m[i] != m[j])
    && (value.Some? ==> forall i :: i in m ==> m[i] <= value.value)
  }

  ghost predicate Reached(m: map<nat, int>, s: set<nat>, c: int) {
    exists i :: i in s && i in m && m[i] == c
  }

  /** The counts held are closed downward, and the counter's value is one of them. */
  ghost predicate Dense(m: map<nat, int>, value: Option<int>) {
    && (forall i :: i in m ==> m[i] >= 1 && (m[i] > 1 ==> Reached(m, m.Keys, m[i] - 1)))
    && (value.Some? ==> Reached(m, m.Keys, value.value) && value.value >= 1)
  }

  /** Two attempts hold the count one. */
  ghost predicate Doubled(m: map<nat, int>) {
    exists i, j :: i in m && j in m && i != j && m[i] == 1 && m[j] == 1
  }

  function NextCount(value: Option<int>): int {
    match value
    case Some(n) => n + 1
    case None => 1
  }

  lemma FewerStayDistinct(m: map<nat, int>, value: Option<int>, m': map<nat, int>, value': Option<int>)
    requires Distinct(m, value) && Within(m', m) && (value' == None || value' == value)
    ensures Distinct(m', value')
  {
  }

  lemma NextStaysDistinct(m: map<nat, int>, value: Option<int>, i: nat)
    requires Distinct(m, value) && i !in m && (value.None? ==> m == map[])
    ensures Distinct(m, Some(NextCount(value))) && Distinct(m[i := NextCount(value)], Some(NextCount(value)))
  {
  }

  lemma MoreReach(m: map<nat, int>, i: nat, n: int, c: int)
    requires i !in m
    ensures Reached(m, m.Keys, c) ==> Reached(m[i := n], m[i := n].Keys, c)
    ensures Reached(m[i := n], m[i := n].Keys, n)
  {
    var m' := m[i := n];
    assert i in m'.Keys && m'[i] == n;
    if Reached(m, m.Keys, c) {
      var j :| j in m.Keys && m[j] == c;
      assert j in m'.Keys && m'[j] == c;
    }
  }

  lemma NextStaysDense(m: map<nat, int>, value: Option<int>, i: nat)
    requires Dense(m, value) && i !in m
    ensures Dense(m[i := NextCount(value)], Some(NextCount(value)))
  {
    hide Reached;
    var n := NextCount(value);
    var m' := m[i := n];
    forall j | j in m' ensures m'[j] >= 1 && (m'[j] > 1 ==> Reached(m', m'.Keys, m'[j] - 1)) {
      MoreReach(m, i, n, m'[j] - 1);
    }
    MoreReach(m, i, n, n);
  }

  lemma MoreStayDoubled(m: map<nat, int>, m': map<nat, int>)
    requires Doubled(m) && Within(m, m')
    ensures Doubled(m')
  {
    var i, j :| i in m && j in m && i != j && m[i] == 1 && m[j] == 1;
    assert i in m' && j in m' && m'[i] == 1 && m'[j] == 1;
  }

  /** From any count held one gets down to every smaller one. */
  lemma {:induction false} SmallerReached(m: map<nat, int>, value: Option<int>, i: nat, c: int)
    requires Dense(m, value) && i in m && 1 <= c <= m[i]
    ensures Reached(m, m.Keys, c)
    decreases m[i]
  {
    if c < m[i] {
      var j :| j in m.Keys && m[j] == m[i] - 1;
      SmallerReached(m, value, j, c);
    }
  }

  /** Starting the counter again while somebody holds a count doubles the count one. */
  lemma RestartDoubles(m: map<nat, int>, i: nat)
    requires Dense(m, None) && m != map[] && i !in m
    ensures Doubled(m[i := 1])
  {
    var k :| k in m;
    SmallerReached(m, None, k, 1);
    var j :| j in m.Keys && m[j] == 1;
    var m' := m[i := 1];
    assert i in m' && j in m' && m'[i] == 1 && m'[j] == 1;
  }

  /** Members holding each of the counts 1 to n are at least n. */
  lemma {:induction false} ReachedBound(m: map<nat, int>, s: set<nat>, n: nat)
    requires forall c :: 1 <= c <= n ==> Reached(m, s, c)
    ensures |s| >= n
  {
    if n > 0 {
      assert Reached(m, s, n);
      var x :| x in s && x in m && m[x] == n;
      forall c | 1 <= c <= n - 1
        ensures Reached(m, s - {x}, c)
      {
        assert Reached(m, s, c);
        var y :| y in s && y in m && m[y] == c;
        assert y in s - {x};
      }
      ReachedBound(m, s - {x}, n - 1);
    }
  }

  lemma LowExceeds(m: map<nat, int>, value: Option<int>, low: set<nat>, limit: nat, top: nat, j: nat, k: nat)
    requires Dense(m, value) && limit >= 1 && top in m && m[top] > limit
    requires j in m && k in m && j != k && m[j] == 1 && m[k] == 1
    requires forall i :: i in low <==> i in m && m[i] <= limit
    ensures |low| > limit
  {
    forall c | 1 <= c <= limit
      ensures Reached(m, low - {j}, c)
    {
      SmallerReached(m, value, top, c);
      var x :| x in m.Keys && m[x] == c;
      var y := if c == 1 then k else x;
      assert y in low - {j} && m[y] == c;
    }
    ReachedBound(m, low - {j}, limit);
    assert j in low;
  }

  /** With two attempts at count one and more attempts than the limit, more than the limit
      hold a count within it. */
  lemma DoubledExceeds(m: map<nat, int>, value: Option<int>, low: set<nat>, limit: nat)
    requires Dense(m, value) && Doubled(m) && limit >= 1 && |m.Keys| > limit
    requires forall i :: i in low <==> i in m && m[i] <= limit
    ensures |low| > limit
  {
    if top :| top in m && m[top] > limit {
      var j, k :| j in m && k in m && j != k && m[j] == 1 && m[k] == 1;
      LowExceeds(m, value, low, limit, top, j, k);
    } else {
      assert low == m.Keys;
    }
  }

  // --------------------------------------------------------------- what one step changes

  /** A step that does not count hands out no count; unless it spoils the counter, it takes
      none away either. The counter may die, but it does not change its value. */
  lemma QuietStep(s: State, step: Step, key: string, i: nat)
    requires Enabled(s, step) && !Counts(s, step, key)
    ensures HoldsCount(Apply(s, step), key, i) ==>
              HoldsCount(s, key, i) && CountOf(Apply(s, step), i) == CountOf(s, i)
    ensures HoldsCount(s, key, i) && !Spoils(s, step, key) ==> HoldsCount(Apply(s, step), key, i)
    ensures Value(Apply(s, step), key) == None || Value(Apply(s, step), key) == Value(s, key)
  {
    hide CounterKey, WindowOf;
  }

  lemma QuietTally(s: State, step: Step, key: string)
    requires Enabled(s, step) && !Counts(s, step, key)
    ensures Within(Tally(Apply(s, step), key), Tally(s, key))
    ensures !Spoils(s, step, key) ==> Tally(Apply(s, step), key) == Tally(s, key)
    ensures Value(Apply(s, step), key) == None || Value(Apply(s, step), key) == Value(s, key)
  {
    hide Apply, Enabled, HoldsCount, Tally, Spoils, Counts, Value, CountOf;
    forall i: nat
      ensures HoldsCount(Apply(s, step), key, i) ==>
                HoldsCount(s, key, i) && CountOf(Apply(s, step), i) == CountOf(s, i)
      ensures HoldsCount(s, key, i) && !Spoils(s, step, key) ==> HoldsCount(Apply(s, step), key, i)
    {
      QuietStep(s, step, key, i);
    }
    QuietStep(s, step, key, 0);
  }

  /** An INCR that takes effect adds one to the counter, or starts it at one, and hands the
      new value to its own attempt, if to any. */
  lemma CountingStep(s: State, step: Step, key: string, j: nat)
    requires Enabled(s, step) && Counts(s, step, key)
    ensures Value(Apply(s, step), key) == Some(NextCount(Value(s, key)))
    ensures HoldsCount(Apply(s, step), key, j) <==> HoldsCount(s, key, j) || (step.Incr? && j == step.i)
    ensures HoldsCount(s, key, j) ==>
              j != step.i && CountOf(Apply(s, step), j) == CountOf(s, j)
    ensures step.Incr? ==> CountOf(Apply(s, step), step.i) == NextCount(Value(s, key))
  {
    hide CounterKey, WindowOf;
  }

  lemma CountingTally(s: State, step: Step, key: string)
    requires Enabled(s, step) && Counts(s, step, key)
    ensures step.i !in Tally(s, key)
    ensures Value(Apply(s, step), key) == Some(NextCount(Value(s, key)))
    ensures Tally(Apply(s, step), key)
            == if step.Incr? then Tally(s, key)[step.i := NextCount(Value(s, key))] else Tally(s, key)
  {
    assert step.Incr? || step.IncrFails?;
    hide Apply, Enabled, HoldsCount, Tally, Counts, Value, NextCount, CountOf;
    var s', n := Apply(s, step), NextCount(Value(s, key));
    CountingStep(s, step, key, step.i);
    forall j: nat
      ensures j in Tally(s', key) <==> j in Tally(s, key) || (step.Incr? && j == step.i)
      ensures j in Tally(s, key) ==> CountOf(s', j) == Tally(s, key)[j]
    {
      CountingStep(s, step, key, j);
    }
    if step.Incr? {
      TallyIs(s', key, Tally(s, key)[step.i := n]);
    } else {
      TallyIs(s', key, Tally(s, key));
    }
  }

  lemma TallyIs(s: State, key: string, m: map<nat, int>)
    requires forall i :: i in Tally(s, key) <==> i in m
    requires forall i :: i in m ==> CountOf(s, i) == m[i]
    ensures Tally(s, key) == m
  {
    hide HoldsCount, CountOf;
  }

  // ---------------------------------------------------- without a restart: never too often

  lemma {:induction false} RunsStayDistinct(clock: int, steps: seq<Step>, key: string)
    requires After(clock, steps).Some? && !Restarted(clock, steps, key)
    ensures Distinct(Tally(After(clock, steps).value, key), Value(After(clock, steps).value, key))
  {
    if steps == [] {
      NobodyYet(clock, key);
    } else {
      var front, last := steps[..|steps| - 1], steps[|steps| - 1];
      var s := After(clock, front).value;
      RunsStayDistinct(clock, front, key);
      LastStep(clock, steps, s);
      hide After, Apply, Enabled, Restarts, Counts, Tally, Value, Distinct;
      StepStaysDistinct(s, last, key);
    }
  }

  lemma StepStaysDistinct(s: State, step: Step, key: string)
    requires Enabled(s, step) && !Restarts(s, step, key) && Distinct(Tally(s, key), Value(s, key))
    ensures Distinct(Tally(Apply(s, step), key), Value(Apply(s, step), key))
  {
    var m, value := Tally(s, key), Value(s, key);
    if Counts(s, step, key) {
      assert value.None? ==> m == map[];
      hide Apply, Enabled, Counts, Tally, Value, Distinct;
      CountingTally(s, step, key);
      NextStaysDistinct(m, value, step.i);
    } else {
      hide Apply, Enabled, Counts, Tally, Value, Distinct;
      QuietTally(s, step, key);
      FewerStayDistinct(m, value, Tally(Apply(s, step), key), Value(Apply(s, step), key));
    }
  }

  lemma NobodyYet(clock: int, key: string)
    ensures Tally(Initial(clock), key) == map[] && Value(Initial(clock), key) == None
  {
  }

  lemma LastStep(clock: int, steps: seq<Step>, s: State)
    requires steps != [] && After(clock, steps).Some? && After(clock, steps[..|steps| - 1]) == Some(s)
    ensures Enabled(s, steps[|steps| - 1]) && After(clock, steps).value == Apply(s, steps[|steps| - 1])
  {
    hide Enabled, Apply;
  }

  /** A decided check was allowed exactly when the count it holds is within its limit. */
  lemma AllowedByCount(s: State, key: string, i: nat)
    requires Good(s) && i in Tally(s, key)
    ensures Tally(s, key)[i] >= 1
    ensures s.attempts[i].phase.Decided? ==> (Allowed(s, i) <==> Tally(s, key)[i] <= s.attempts[i].request.limit)
  {
    hide OutlivesWindow, Covered, Key;
    assert HoldsCount(s, key, i);
    assert PhaseSane(s.clock, s.attempts[i]);
  }

  /** In every run, crashes and store errors anywhere, at most `limit` of all checks of one
      window are allowed, late ones included, as long as its counter is never restarted. */
  lemma WithinLimitUnlessRestarted(clock: int, steps: seq<Step>, tokenID: string, p: Period, t: int, limit: nat)
    requires After(clock, steps).Some? && !Restarted(clock, steps, WindowKey(tokenID, p, t))
    requires var s := After(clock, steps).value;
             forall i :: i in AllowedOf(s, WindowKey(tokenID, p, t)) ==> s.attempts[i].request.limit <= limit
    ensures |AllowedOf(After(clock, steps).value, WindowKey(tokenID, p, t))| <= limit
  {
    hide After, WindowKey, Restarted, Good, HoldsCount, Tally;
    var s, key := After(clock, steps).value, WindowKey(tokenID, p, t);
    RunsKeepGood(clock, steps);
    RunsStayDistinct(clock, steps, key);
    var m := Tally(s, key);
    var f := (i: nat) => if i in m then m[i] else 0;
    forall i | i in AllowedOf(s, key)
      ensures 1 <= f(i) <= limit
    {
      AllowedByCount(s, key, i);
    }
    InjectionBound(AllowedOf(s, key), f, limit);
  }

  // --------------------------------------------------- with a restart: exactly when too often

  lemma {:induction false} UnspoiledRunsStayDense(clock: int, steps: seq<Step>, key: string)
    requires After(clock, steps).Some? && Unspoiled(clock, steps, key)
    ensures Dense(Tally(After(clock, steps).value, key), Value(After(clock, steps).value, key))
    ensures Restarted(clock, steps, key) ==> Doubled(Tally(After(clock, steps).value, key))
  {
    if steps == [] {
      NobodyYet(clock, key);
    } else {
      var front, last := steps[..|steps| - 1], steps[|steps| - 1];
      var s := After(clock, front).value;
      UnspoiledRunsStayDense(clock, front, key);
      LastStep(clock, steps, s);
      hide After, Apply, Enabled, Restarts, Counts, Spoils, Tally, Value, Dense, Doubled;
      StepStaysDense(s, last, key);
    }
  }

  lemma StepStaysDense(s: State, step: Step, key: string)
    requires Enabled(s, step) && !Spoils(s, step, key) && Dense(Tally(s, key), Value(s, key))
    ensures Dense(Tally(Apply(s, step), key), Value(Apply(s, step), key))
    ensures Doubled(Tally(s, key)) || Restarts(s, step, key) ==> Doubled(Tally(Apply(s, step), key))
  {
    var m, value := Tally(s, key), Value(s, key);
    assert Counts(s, step, key) ==> step.Incr?;
    if Restarts(s, step, key) {
      RestartMeans(s, step, key);
    }
    hide Apply, Enabled, Restarts, Counts, Spoils, Tally, Value, Dense, Doubled;
    if Counts(s, step, key) {
      CountingTally(s, step, key);
      NextStaysDense(m, value, step.i);
      if Restarts(s, step, key) {
        assert Dense(m, None);
        RestartDoubles(m, step.i);
      }
      if Doubled(m) {
        MoreStayDoubled(m, m[step.i := NextCount(value)]);
      }
    } else {
      QuietTally(s, step, key);
      DyingStaysDense(m, value);
    }
  }

  lemma RestartMeans(s: State, step: Step, key: string)
    requires Restarts(s, step, key)
    ensures Counts(s, step, key) && Value(s, key) == None && Tally(s, key) != map[]
  {
    hide HoldsCount, Counts;
    var i: nat :| HoldsCount(s, key, i);
    assert i in Tally(s, key);
  }

  lemma DyingStaysDense(m: map<nat, int>, value: Option<int>)
    requires Dense(m, value)
    ensures Dense(m, None)
  {
  }

  /** When every check of one window has decided under one limit and nothing spoiled its
      counter, more checks than the limit are allowed exactly when the counter was restarted
      and there were more checks than the limit. */
  lemma ExceededIffRestarted(clock: int, steps: seq<Step>, tokenID: string, p: Period, t: int, limit: int)
    requires After(clock, steps).Some? && Unspoiled(clock, steps, WindowKey(tokenID, p, t))
    requires var s := After(clock, steps).value;
             forall i :: i in Tally(s, WindowKey(tokenID, p, t)) ==>
               s.attempts[i].phase.Decided? && s.attempts[i].request.limit == limit
    ensures var s, key := After(clock, steps).value, WindowKey(tokenID, p, t);
            |AllowedOf(s, key)| > (if limit < 0 then 0 else limit) <==>
            limit >= 1 && Restarted(clock, steps, key) && |Tally(s, key).Keys| > limit
  {
    var s, key := After(clock, steps).value, WindowKey(tokenID, p, t);
    hide After, WindowKey, Restarted, Unspoiled, Good, HoldsCount, Tally, Value, Dense, Doubled;
    RunsKeepGood(clock, steps);
    var m, allowed := Tally(s, key), AllowedOf(s, key);
    forall i ensures i in allowed <==> i in m && m[i] <= limit {
      if i in m {
        AllowedByCount(s, key, i);
      }
    }
    if limit < 1 {
      NoneWithin(s, key, limit, allowed);
    } else {
      AtMostAsMany(allowed, m.Keys);
      if !Restarted(clock, steps, key) {
        WithinLimitUnlessRestarted(clock, steps, tokenID, p, t, limit);
      } else {
        UnspoiledRunsStayDense(clock, steps, key);
        if |m.Keys| > limit {
          DoubledExceeds(m, Value(s, key), allowed, limit);
        }
      }
    }
  }

  lemma AtMostAsMany(a: set<nat>, b: set<nat>)
    requires a <= b
    ensures |a| <= |b|
  {
    assert b == a + (b - a);
  }

  lemma NoneWithin(s: State, key: string, limit: int, allowed: set<nat>)
    requires Good(s) && limit < 1
    requires forall i :: i in allowed <==> i in Tally(s, key) && Tally(s, key)[i] <= limit
    ensures allowed == {}
  {
    hide Good, Tally, HoldsCount;
    forall i ensures i !in allowed {
      if i in Tally(s, key) {
        AllowedByCount(s, key, i);
      }
    }
  }
}
