/** The distributed fixed-window limiter: any number of replicas that share only the two
    store commands INCR and EXPIRE, interleaved step by step. */
module RateLimiter {
  import opened Collections
  import opened RateWindows

  // --------------------------------------------------------------------- counter keys

  function Digit(d: nat): (c: char)
    requires d < 10
    ensures '0' <= c <= '9'
  {
    "0123456789"[d]
  }

  function Digits(n: nat): (s: string)
    ensures s != "" && (|s| == 1 <==> n < 10)
    ensures forall i :: 0 <= i < |s| ==> '0' <= s[i] <= '9'
  {
    if n < 10 then [Digit(n)] else Digits(n / 10) + [Digit(n % 10)]
  }

  /** What %d prints. */
  function Decimal(n: int): (s: string)
    ensures s != "" && (s[0] == '-' <==> n < 0)
    ensures ':' !in s
  {
    if n < 0 then "-" + Digits(-n) else Digits(n)
  }

  /** Whole seconds since the Unix epoch, rounded down. */
  function Unix(t: int): int {
    (t - EPOCH) / SECOND
  }

  function CounterKey(tokenID: string, p: Period, start: int): string {
    "ratelimit:token:" + tokenID + ":" + PeriodName(p) + ":" + Decimal(Unix(start))
  }

  /** The number a string of decimal digits is read as. */
  ghost function Reads(s: string): int {
    if s == "" then 0 else 10 * Reads(s[..|s| - 1]) + (s[|s| - 1] as int - '0' as int)
  }

  lemma DigitReads(d: nat)
    requires d < 10
    ensures Digit(d) as int == '0' as int + d
  {
    assert "0123456789"[d] as int == '0' as int + d;
  }

  lemma {:induction false} DigitsRead(n: nat)
    ensures Reads(Digits(n)) == n && (n > 0 ==> Digits(n)[0] != '0')
  {
    DigitReads(n % 10);
    if n >= 10 {
      DigitsRead(n / 10);
      assert Digits(n)[..|Digits(n)| - 1] == Digits(n / 10);
    } else {
      assert Digits(n)[..0] == "";
    }
  }

  /** An integer as it is written: digits without a leading zero, after a minus sign if it is
      negative. */
  ghost predicate Writes(s: string, n: int) {
    var digits := if n < 0 && s != "" then s[1..] else s;
    && (n < 0 ==> s != "" && s[0] == '-')
    && digits != "" && (|digits| > 1 ==> digits[0] != '0')
    && (forall i :: 0 <= i < |digits| ==> '0' <= digits[i] <= '9')
    && Reads(digits) == if n < 0 then -n else n
  }

  /** The text of a key: the token, the period by its name, and the Unix second at which the
      window starts, written in decimal. */
  lemma KeyText(tokenID: string, p: Period, t: int)
    ensures var start := WindowOf(p, t).start;
            (start - EPOCH) % SECOND == 0
            && exists seconds ::
                 && Writes(seconds, (start - EPOCH) / SECOND)
                 && CounterKey(tokenID, p, start)
                    == "ratelimit:token:" + tokenID + ":" + PeriodName(p) + ":" + seconds
  {
    StartsOnSecond(p, t);
    hide WindowOf, Decimal;
    var start := WindowOf(p, t).start;
    SecondsFromEpoch(start);
    var seconds := Decimal(Unix(start));
    DecimalWrites(Unix(start));
    hide Writes;
    assert Writes(seconds, (start - EPOCH) / SECOND);
    assert CounterKey(tokenID, p, start) == "ratelimit:token:" + tokenID + ":" + PeriodName(p) + ":" + seconds;
  }

  lemma SecondsFromEpoch(start: int)
    requires start % SECOND == 0
    ensures (start - EPOCH) % SECOND == 0
  {
  }

  lemma DecimalWrites(n: int)
    ensures Writes(Decimal(n), n)
  {
    DigitsRead(if n < 0 then -n else n);
    assert n < 0 ==> Decimal(n)[1..] == Digits(-n);
    hide Digits, Reads;
  }

  lemma DigitInjective(d: nat, e: nat)
    requires d < 10 && e < 10 && Digit(d) == Digit(e)
    ensures d == e
  {
  }

  lemma {:induction false} DigitsInjective(m: nat, n: nat)
    requires Digits(m) == Digits(n)
    ensures m == n
  {
    hide Digit;
    var a, b := Digits(m), Digits(n);
    assert a[|a| - 1] == Digit(m % 10) && b[|b| - 1] == Digit(n % 10);
    DigitInjective(m % 10, n % 10);
    if m >= 10 {
      assert a[..|a| - 1] == Digits(m / 10) && b[..|b| - 1] == Digits(n / 10);
      DigitsInjective(m / 10, n / 10);
    }
  }

  lemma DecimalInjective(m: int, n: int)
    requires Decimal(m) == Decimal(n)
    ensures m == n
  {
    if m < 0 {
      assert Decimal(m)[1..] == Digits(-m) && Decimal(n)[1..] == Digits(-n);
      DigitsInjective(-m, -n);
    } else {
      DigitsInjective(m, n);
    }
  }

  lemma ColonInside(a: string, b: string, c: string, d: string)
    requires a + ":" + b == c + ":" + d && |b| < |d|
    ensures ':' in d
  {
    var s := a + ":" + b;
    assert s[|s| - |b| - 1] == ':';
    assert s[|s| - |b| - 1] == d[|d| - |b| - 1];
  }

  /** A string splits in one way at its last colon. */
  lemma LastColonUnique(a: string, b: string, c: string, d: string)
    requires ':' !in b && ':' !in d
    requires a + ":" + b == c + ":" + d
    ensures a == c && b == d
  {
    var s := a + ":" + b;
    if |b| < |d| {
      ColonInside(a, b, c, d);
    } else if |d| < |b| {
      ColonInside(c, d, a, b);
    } else {
      assert s[..|a|] == a && s[..|c|] == c;
      assert s[|a| + 1..] == b && s[|c| + 1..] == d;
    }
  }

  lemma PeriodNameInjective(p: Period, q: Period)
    ensures ':' !in PeriodName(p)
    ensures PeriodName(p) == PeriodName(q) ==> p == q
  {
    assert ParsePeriod(PeriodName(p)) == Some(p);
    assert ParsePeriod(PeriodName(q)) == Some(q);
  }

  /** The key is injective in token, period and window start, whatever the token id holds. */
  lemma KeyInjective(id: string, p: Period, t: int, id': string, p': Period, t': int)
    requires CounterKey(id, p, WindowOf(p, t).start) == CounterKey(id', p', WindowOf(p', t').start)
    ensures id == id' && p == p' && WindowOf(p, t) == WindowOf(p', t')
  {
    hide WindowOf, Decimal, Unix, PeriodName;
    var s, s' := WindowOf(p, t).start, WindowOf(p', t').start;
    var a, a' := "ratelimit:token:" + id, "ratelimit:token:" + id';
    LastColonUnique(a + ":" + PeriodName(p), Decimal(Unix(s)), a' + ":" + PeriodName(p'), Decimal(Unix(s')));
    PeriodNameInjective(p, p');
    PeriodNameInjective(p', p);
    LastColonUnique(a, PeriodName(p), a', PeriodName(p'));
    assert a[16..] == id && a'[16..] == id';
    DecimalInjective(Unix(s), Unix(s'));
    StartsOnSecond(p, t);
    StartsOnSecond(p', t');
    SameSecond(s, s');
    WindowsTile(p, t, s');
    WindowsTile(p', t', s');
  }

  lemma SameSecond(s: int, s': int)
    requires s % SECOND == 0 && s' % SECOND == 0 && Unix(s) == Unix(s')
    ensures s == s'
  {
  }

  // ------------------------------------------------------------------ the shared store

  /** A counter and the instant it dies at, if one was set. */
  datatype Counter = Counter(value: int, deadline: Option<int>)

  type Counters = map<string, Counter>

  /** INCR: create at 1 or add one; the deadline stays. */
  function Incremented(store: Counters, key: string): Counters {
    store[key := if key in store then store[key].(value := store[key].value + 1) else Counter(1, None)]
  }

  /** EXPIRE: the key dies at `deadline`; nothing happens to a key that is not there. */
  function Expiring(store: Counters, key: string, deadline: int): Counters {
    if key in store then store[key := store[key].(deadline := Some(deadline))] else store
  }

  /** What is left at instant `clock`. */
  function Surviving(store: Counters, clock: int): (r: Counters)
    ensures forall k :: k in r <==> k in store && (store[k].deadline.None? || clock < store[k].deadline.value)
    ensures forall k :: k in r ==> r[k] == store[k]
  {
    map k | k in store && (store[k].deadline.None? || clock < store[k].deadline.value) :: store[k]
  }

  // --------------------------------------------------------------------- the protocol

  /** What one check is asked for: a token, its limit and its period. */
  datatype Request = Request(tokenID: string, limit: int, period: Period)

  /** How far one check has come. `now` is its clock read; `at` the instant its INCR ran. */
  datatype Phase =
    | Arrived
    | Clocked(now: int)
    | Counted(now: int, count: int, at: int)
    | Armed(now: int, count: int, at: int)
    | Decided(now: int, count: int, at: int, allowed: bool)
    | Gone

  datatype Attempt = Attempt(request: Request, phase: Phase)

  datatype State = State(clock: int, store: Counters, attempts: seq<Attempt>)

  /** One step of the system. A store call may fail whether or not it took effect, and a
      replica may stop between any two of its steps; a decision made stays made. */
  datatype Step =
    | Tick(to: int)
    | Arrive(request: Request)
    | ReadClock(i: nat)
    | Incr(i: nat)
    | IncrFails(i: nat, applied: bool)
    | Expire(i: nat)
    | ExpireFails(i: nat, applied: bool)
    | Decide(i: nat)
    | Crash(i: nat)

  function AttemptKey(r: Request, now: int): string {
    CounterKey(r.tokenID, r.period, WindowOf(r.period, now).start)
  }

  predicate Enabled(s: State, step: Step) {
    match step
    case Tick(to) => s.clock <= to
    case Arrive(_) => true
    case ReadClock(i) => i < |s.attempts| && s.attempts[i].phase.Arrived?
    case Incr(i) => i < |s.attempts| && s.attempts[i].phase.Clocked?
    case IncrFails(i, _) => i < |s.attempts| && s.attempts[i].phase.Clocked?
    case Expire(i) => i < |s.attempts| && s.attempts[i].phase.Counted? && s.attempts[i].phase.count == 1
    case ExpireFails(i, _) => i < |s.attempts| && s.attempts[i].phase.Counted? && s.attempts[i].phase.count == 1
    case Decide(i) =>
      i < |s.attempts| &&
      (s.attempts[i].phase.Armed? || (s.attempts[i].phase.Counted? && s.attempts[i].phase.count != 1))
    case Crash(i) => i < |s.attempts| && !s.attempts[i].phase.Decided?
  }

  function Move(s: State, i: nat, phase: Phase, store: Counters): State
    requires i < |s.attempts|
  {
    s.(store := store, attempts := s.attempts[i := s.attempts[i].(phase := phase)])
  }

  function Apply(s: State, step: Step): State
    requires Enabled(s, step)
  {
    match step
    case Tick(to) => s.(clock := to, store := Surviving(s.store, to))
    case Arrive(r) => s.(attempts := s.attempts + [Attempt(r, Arrived)])
    case ReadClock(i) => Move(s, i, Clocked(s.clock), s.store)
    case Incr(i) =>
      var a := s.attempts[i];
      var key := AttemptKey(a.request, a.phase.now);
      var store := Incremented(s.store, key);
      Move(s, i, Counted(a.phase.now, store[key].value, s.clock), store)
    case IncrFails(i, applied) =>
      var a := s.attempts[i];
      Move(s, i, Gone, if applied then Incremented(s.store, AttemptKey(a.request, a.phase.now)) else s.store)
    case Expire(i) =>
      var a := s.attempts[i];
      var ttl := WindowOf(a.request.period, a.phase.now).end - a.phase.now;
      Move(s, i, Armed(a.phase.now, a.phase.count, a.phase.at),
           Expiring(s.store, AttemptKey(a.request, a.phase.now), s.clock + ttl))
    case ExpireFails(i, applied) =>
      var a := s.attempts[i];
      var ttl := WindowOf(a.request.period, a.phase.now).end - a.phase.now;
      Move(s, i, Gone,
           if applied then Expiring(s.store, AttemptKey(a.request, a.phase.now), s.clock + ttl) else s.store)
    case Decide(i) =>
      var a := s.attempts[i];
      Move(s, i, Decided(a.phase.now, a.phase.count, a.phase.at, a.phase.count <= a.request.limit), s.store)
    case Crash(i) => Move(s, i, Gone, s.store)
  }

  function Initial(clock: int): State {
    State(clock, map[], [])
  }

  /** The state after a run of steps; None when some step was not enabled in its turn. */
  function After(clock: int, steps: seq<Step>): Option<State> {
    if steps == [] then Some(Initial(clock))
    else
      match After(clock, steps[..|steps| - 1])
      case None => None
      case Some(s) =>
        if Enabled(s, steps[|steps| - 1]) then Some(Apply(s, steps[|steps| - 1])) else None
  }

  // --------------------------------------------------------------------- the invariant

  /** The attempt's INCR returned to it. */
  predicate HasCount(a: Attempt) {
    a.phase.Counted? || a.phase.Armed? || a.phase.Decided?
  }

  function End(a: Attempt): int
    requires a.phase.Clocked? || HasCount(a)
  {
    WindowOf(a.request.period, a.phase.now).end
  }

  function Key(a: Attempt): string
    requires a.phase.Clocked? || HasCount(a)
  {
    AttemptKey(a.request, a.phase.now)
  }

  /** The attempt was counted before its own window ended. */
  predicate InTime(a: Attempt) {
    HasCount(a) && a.phase.at < End(a)
  }

  ghost predicate PhaseSane(clock: int, a: Attempt) {
    && (a.phase.Clocked? ==> a.phase.now <= clock)
    && (HasCount(a) ==> a.phase.now <= a.phase.at <= clock && a.phase.count >= 1)
    && (a.phase.Decided? ==> (a.phase.allowed <==> a.phase.count <= a.request.limit))
  }

  /** No counter dies before the window it counts has ended. */
  ghost predicate OutlivesWindow(store: Counters, tokenID: string, p: Period, t: int) {
    var key := CounterKey(tokenID, p, WindowOf(p, t).start);
    key in store && store[key].deadline.Some? ==> WindowOf(p, t).end <= store[key].deadline.value
  }

  /** While the window is open, the counter is there and at least the attempt's count. */
  ghost predicate Covered(s: State, a: Attempt) {
    InTime(a) && s.clock < End(a) ==> Key(a) in s.store && a.phase.count <= s.store[Key(a)].value
  }

  ghost predicate SameCounter(a: Attempt, b: Attempt) {
    InTime(a) && InTime(b) && Key(a) == Key(b)
  }

  ghost predicate Good(s: State) {
    && (forall k :: k in s.store ==> s.store[k].value >= 1)
    && (forall id, p, t :: OutlivesWindow(s.store, id, p, t))
    && (forall i :: 0 <= i < |s.attempts| ==> PhaseSane(s.clock, s.attempts[i]))
    && (forall i :: 0 <= i < |s.attempts| ==> Covered(s, s.attempts[i]))
    && (forall i, j ::
          0 <= i < j < |s.attempts| && SameCounter(s.attempts[i], s.attempts[j]) ==>
          s.attempts[i].phase.count != s.attempts[j].phase.count)
  }

  ghost predicate StoreGrows(before: Counters, after: Counters) {
    && (forall k :: k in before ==> k in after && before[k].value <= after[k].value)
    && (forall k :: k in after ==> after[k].value >= 1)
    && (forall id, p, t :: OutlivesWindow(after, id, p, t))
  }

  /** A step of one attempt keeps the invariant if the store only grows and the attempt's
      new phase is sane, covered and counted apart from every other. */
  lemma MoveKeepsGood(s: State, i: nat, phase: Phase, store: Counters)
    requires Good(s) && i < |s.attempts| && StoreGrows(s.store, store)
    requires var a := s.attempts[i].(phase := phase);
             && PhaseSane(s.clock, a)
             && Covered(s.(store := store), a)
             && forall j ::
                  0 <= j < |s.attempts| && j != i && SameCounter(s.attempts[j], a) ==>
                  s.attempts[j].phase.count != phase.count
    ensures Good(Move(s, i, phase, store))
  {
    hide OutlivesWindow, PhaseSane, Key, InTime;
    var s' := Move(s, i, phase, store);
    forall j | 0 <= j < |s'.attempts|
      ensures PhaseSane(s'.clock, s'.attempts[j]) && Covered(s', s'.attempts[j])
    {
      if j != i {
        assert Covered(s, s.attempts[j]);
      }
    }
  }

  lemma SameKeySameEnd(a: Attempt, b: Attempt)
    requires (a.phase.Clocked? || HasCount(a)) && (b.phase.Clocked? || HasCount(b))
    requires Key(a) == Key(b)
    ensures End(a) == End(b)
  {
    hide WindowOf, CounterKey;
    KeyInjective(a.request.tokenID, a.request.period, a.phase.now, b.request.tokenID, b.request.period, b.phase.now);
  }

  lemma IncrementGrows(s: State, key: string)
    requires Good(s)
    ensures StoreGrows(s.store, Incremented(s.store, key))
  {
    hide CounterKey, WindowOf;
    forall id, p, t
      ensures OutlivesWindow(Incremented(s.store, key), id, p, t)
    {
      assert OutlivesWindow(s.store, id, p, t);
    }
  }

  /** EXPIRE with the time left in the window, run no earlier than the clock was read,
      never cuts a window short. */
  lemma ExpiryGrows(s: State, i: nat)
    requires Good(s) && i < |s.attempts| && s.attempts[i].phase.Counted?
    ensures StoreGrows(s.store,
                       Expiring(s.store, Key(s.attempts[i]),
                                s.clock + (End(s.attempts[i]) - s.attempts[i].phase.now)))
  {
    hide CounterKey, WindowOf;
    var a := s.attempts[i];
    assert PhaseSane(s.clock, a);
    var deadline := s.clock + (End(a) - a.phase.now);
    var store := Expiring(s.store, Key(a), deadline);
    forall id, p, t
      ensures OutlivesWindow(store, id, p, t)
    {
      assert OutlivesWindow(s.store, id, p, t);
      if CounterKey(id, p, WindowOf(p, t).start) == Key(a) {
        KeyInjective(id, p, t, a.request.tokenID, a.request.period, a.phase.now);
      }
    }
  }

  lemma IncrKeepsGood(s: State, i: nat)
    requires Good(s) && Enabled(s, Incr(i))
    ensures Good(Apply(s, Incr(i)))
  {
    hide CounterKey, WindowOf, OutlivesWindow, StoreGrows;
    var a := s.attempts[i];
    var key := Key(a);
    var store := Incremented(s.store, key);
    var phase := Counted(a.phase.now, store[key].value, s.clock);
    var b := a.(phase := phase);
    IncrementGrows(s, key);
    assert PhaseSane(s.clock, a);
    forall j | 0 <= j < |s.attempts| && j != i && SameCounter(s.attempts[j], b)
      ensures s.attempts[j].phase.count != phase.count
    {
      SameKeySameEnd(s.attempts[j], b);
      assert Covered(s, s.attempts[j]);
    }
    MoveKeepsGood(s, i, phase, store);
  }

  lemma StoreUnchanged(s: State)
    requires Good(s)
    ensures StoreGrows(s.store, s.store)
  {
  }

  /** A phase change that keeps the count keeps the invariant. */
  lemma SameCountKeepsGood(s: State, i: nat, phase: Phase, store: Counters)
    requires Good(s) && i < |s.attempts| && StoreGrows(s.store, store)
    requires HasCount(s.attempts[i]) && HasCount(s.attempts[i].(phase := phase))
    requires phase.now == s.attempts[i].phase.now && phase.count == s.attempts[i].phase.count
    requires phase.at == s.attempts[i].phase.at
    requires phase.Decided? ==> (phase.allowed <==> phase.count <= s.attempts[i].request.limit)
    ensures Good(Move(s, i, phase, store))
  {
    hide CounterKey, WindowOf, OutlivesWindow, AttemptKey;
    var a, b := s.attempts[i], s.attempts[i].(phase := phase);
    assert PhaseSane(s.clock, a) && Covered(s, a);
    assert Key(a) == Key(b) && End(a) == End(b);
    forall j | 0 <= j < |s.attempts| && j != i && SameCounter(s.attempts[j], b)
      ensures s.attempts[j].phase.count != phase.count
    {
      if j < i {
        assert s.attempts[j].phase.count != s.attempts[i].phase.count;
      } else {
        assert s.attempts[i].phase.count != s.attempts[j].phase.count;
      }
    }
    MoveKeepsGood(s, i, phase, store);
  }

  lemma TickKeepsGood(s: State, to: int)
    requires Good(s) && s.clock <= to
    ensures Good(Apply(s, Tick(to)))
  {
    hide CounterKey, WindowOf;
    var s' := Apply(s, Tick(to));
    forall id, p, t
      ensures OutlivesWindow(s'.store, id, p, t)
    {
      assert OutlivesWindow(s.store, id, p, t);
    }
    forall i | 0 <= i < |s.attempts|
      ensures PhaseSane(to, s.attempts[i]) && Covered(s', s.attempts[i])
    {
      var a := s.attempts[i];
      assert PhaseSane(s.clock, a) && Covered(s, a);
      if HasCount(a) {
        assert OutlivesWindow(s.store, a.request.tokenID, a.request.period, a.phase.now);
      }
    }
  }

  lemma ArriveKeepsGood(s: State, r: Request)
    requires Good(s)
    ensures Good(Apply(s, Arrive(r)))
  {
    hide CounterKey, WindowOf, OutlivesWindow;
    var s' := Apply(s, Arrive(r));
    forall i | 0 <= i < |s'.attempts|
      ensures PhaseSane(s'.clock, s'.attempts[i]) && Covered(s', s'.attempts[i])
    {
      if i < |s.attempts| {
        assert Covered(s, s.attempts[i]);
      }
    }
  }

  lemma StepKeepsGood(s: State, step: Step)
    requires Good(s) && Enabled(s, step)
    ensures Good(Apply(s, step))
  {
    hide CounterKey, WindowOf, OutlivesWindow, StoreGrows, Good;
    StoreUnchanged(s);
    match step
    case Tick(to) => TickKeepsGood(s, to);
    case Arrive(r) => ArriveKeepsGood(s, r);
    case ReadClock(i) => MoveKeepsGood(s, i, Clocked(s.clock), s.store);
    case Incr(i) => IncrKeepsGood(s, i);
    case IncrFails(i, applied) =>
      IncrementGrows(s, Key(s.attempts[i]));
      MoveKeepsGood(s, i, Gone, if applied then Incremented(s.store, Key(s.attempts[i])) else s.store);
    case Expire(i) =>
      var a := s.attempts[i];
      ExpiryGrows(s, i);
      SameCountKeepsGood(s, i, Armed(a.phase.now, a.phase.count, a.phase.at),
                         Expiring(s.store, Key(a), s.clock + (End(a) - a.phase.now)));
    case ExpireFails(i, applied) =>
      var a := s.attempts[i];
      ExpiryGrows(s, i);
      MoveKeepsGood(s, i, Gone,
                    if applied then Expiring(s.store, Key(a), s.clock + (End(a) - a.phase.now)) else s.store);
    case Decide(i) =>
      var a := s.attempts[i];
      var decided := Decided(a.phase.now, a.phase.count, a.phase.at, a.phase.count <= a.request.limit);
      SameCountKeepsGood(s, i, decided, s.store);
    case Crash(i) => MoveKeepsGood(s, i, Gone, s.store);
  }

  lemma {:induction false} RunsKeepGood(clock: int, steps: seq<Step>)
    ensures After(clock, steps).Some? ==> Good(After(clock, steps).value)
  {
    hide Good, Enabled, Apply;
    if steps == [] {
      InitialIsGood(clock);
    } else {
      RunsKeepGood(clock, steps[..|steps| - 1]);
      if After(clock, steps).Some? {
        StepKeepsGood(After(clock, steps[..|steps| - 1]).value, steps[|steps| - 1]);
      }
    }
  }

  lemma InitialIsGood(clock: int)
    ensures Good(Initial(clock))
  {
    hide CounterKey, WindowOf;
  }

  // --------------------------------------------------------- safety: never over the limit

  /** The attempts of one token in one window that were counted before the window ended. */
  ghost function CountedIn(s: State, tokenID: string, p: Period, t: int): (r: set<nat>)
    ensures forall i :: i in r ==> i < |s.attempts| && InTime(s.attempts[i])
  {
    set i: nat | i < |s.attempts| && InTime(s.attempts[i]) &&
                 s.attempts[i].request.tokenID == tokenID && s.attempts[i].request.period == p &&
                 WindowOf(p, s.attempts[i].phase.now) == WindowOf(p, t)
  }

  ghost predicate Allowed(s: State, i: nat) {
    i < |s.attempts| && s.attempts[i].phase.Decided? && s.attempts[i].phase.allowed
  }

  ghost function AllowedIn(s: State, tokenID: string, p: Period, t: int): set<nat> {
    set i: nat | i in CountedIn(s, tokenID, p, t) && Allowed(s, i)
  }

  function CountOf(s: State, i: nat): int {
    if i < |s.attempts| && HasCount(s.attempts[i]) then s.attempts[i].phase.count else 0
  }

  lemma CountsDistinct(s: State, tokenID: string, p: Period, t: int, i: nat, j: nat)
    requires Good(s) && i in CountedIn(s, tokenID, p, t) && j in CountedIn(s, tokenID, p, t) && i != j
    ensures CountOf(s, i) != CountOf(s, j)
  {
    hide WindowOf, CounterKey, OutlivesWindow, Covered, PhaseSane;
    var a, b := s.attempts[i], s.attempts[j];
    assert Key(a) == Key(b);
  }

  /** In every interleaving, with crashes and store errors anywhere, a token gets at most
      `limit` allowed decisions from the INCRs that ran before its window ended. */
  lemma NeverOverLimit(clock: int, steps: seq<Step>, tokenID: string, p: Period, t: int, limit: nat)
    requires After(clock, steps).Some?
    requires var s := After(clock, steps).value;
             forall i :: i in AllowedIn(s, tokenID, p, t) ==> s.attempts[i].request.limit <= limit
    ensures |AllowedIn(After(clock, steps).value, tokenID, p, t)| <= limit
  {
    hide After, WindowOf, CounterKey, OutlivesWindow, Covered, CountOf;
    var s := After(clock, steps).value;
    RunsKeepGood(clock, steps);
    var allowed := AllowedIn(s, tokenID, p, t);
    var f := (i: nat) => CountOf(s, i);
    forall i | i in allowed
      ensures 1 <= f(i) <= limit
    {
      CountIsCount(s, i);
      assert PhaseSane(s.clock, s.attempts[i]);
    }
    forall i, j | i in allowed && j in allowed && i != j
      ensures f(i) != f(j)
    {
      CountsDistinct(s, tokenID, p, t, i, j);
    }
    InjectionBound(allowed, f, limit);
  }

  lemma CountIsCount(s: State, i: nat)
    requires i < |s.attempts| && HasCount(s.attempts[i])
    ensures CountOf(s, i) == s.attempts[i].phase.count
  {
  }

  // ------------------------------------------- exactness when nothing disturbs the window

  /** The step spoils the count of one window: an INCR on its counter that reports a failure
      after taking effect, or an attempt already counted in it that ends without deciding. */
  ghost predicate Disturbs(s: State, step: Step, tokenID: string, p: Period, t: int) {
    match step
    case IncrFails(i, applied) =>
      && applied && s.clock < WindowOf(p, t).end
      && i < |s.attempts| && s.attempts[i].phase.Clocked?
      && Key(s.attempts[i]) == CounterKey(tokenID, p, WindowOf(p, t).start)
    case ExpireFails(i, _) => i in CountedIn(s, tokenID, p, t)
    case Crash(i) => i in CountedIn(s, tokenID, p, t)
    case _ => false
  }

  /** No step of the run spoils the window's count, whatever happens to other windows and
      other tokens. */
  ghost predicate Undisturbed(clock: int, steps: seq<Step>, tokenID: string, p: Period, t: int) {
    steps != [] ==>
      && Undisturbed(clock, steps[..|steps| - 1], tokenID, p, t)
      && (After(clock, steps[..|steps| - 1]).Some? ==>
            !Disturbs(After(clock, steps[..|steps| - 1]).value, steps[|steps| - 1], tokenID, p, t))
  }

  /** While a window is open its counter equals the number of attempts counted in it, and
      their counts are 1 up to that number. */
  ghost predicate Exact(s: State, tokenID: string, p: Period, t: int) {
    var key := CounterKey(tokenID, p, WindowOf(p, t).start);
    var counted := CountedIn(s, tokenID, p, t);
    && (s.clock < WindowOf(p, t).end ==> |counted| == if key in s.store then s.store[key].value else 0)
    && (forall i :: i in counted ==> CountOf(s, i) <= |counted|)
  }

  /** Steps that neither count an attempt nor touch the counter's value. */
  lemma SameCountedKeepsExact(s: State, s': State, tokenID: string, p: Period, t: int)
    requires Exact(s, tokenID, p, t)
    requires CountedIn(s', tokenID, p, t) == CountedIn(s, tokenID, p, t)
    requires forall i :: i in CountedIn(s, tokenID, p, t) ==> CountOf(s', i) == CountOf(s, i)
    requires s.clock <= s'.clock
    requires var key := CounterKey(tokenID, p, WindowOf(p, t).start);
             s'.clock < WindowOf(p, t).end ==>
               (key in s.store <==> key in s'.store) &&
               (key in s.store ==> s'.store[key].value == s.store[key].value)
    ensures Exact(s', tokenID, p, t)
  {
    hide WindowOf, CounterKey, CountedIn, CountOf;
  }

  lemma TickKeepsExact(s: State, to: int, tokenID: string, p: Period, t: int)
    requires Good(s) && s.clock <= to && Exact(s, tokenID, p, t)
    ensures Exact(Apply(s, Tick(to)), tokenID, p, t)
  {
    hide WindowOf, CounterKey, InTime;
    var s' := Apply(s, Tick(to));
    assert OutlivesWindow(s.store, tokenID, p, t);
    assert CountedIn(s', tokenID, p, t) == CountedIn(s, tokenID, p, t);
    SameCountedKeepsExact(s, s', tokenID, p, t);
  }

  lemma ArriveKeepsExact(s: State, r: Request, tokenID: string, p: Period, t: int)
    requires Exact(s, tokenID, p, t)
    ensures Exact(Apply(s, Arrive(r)), tokenID, p, t)
  {
    hide WindowOf, CounterKey;
    var s' := Apply(s, Arrive(r));
    assert CountedIn(s', tokenID, p, t) == CountedIn(s, tokenID, p, t);
    SameCountedKeepsExact(s, s', tokenID, p, t);
  }

  /** While the window is open, the store has its counter with the value it had. */
  ghost predicate CounterKept(s: State, store: Counters, tokenID: string, p: Period, t: int) {
    var key := CounterKey(tokenID, p, WindowOf(p, t).start);
    s.clock < WindowOf(p, t).end ==>
      (key in s.store <==> key in store) && (key in s.store ==> store[key].value == s.store[key].value)
  }

  /** A step of one attempt that leaves who is counted, with what count, as it was. */
  lemma MoveKeepsExact(s: State, i: nat, phase: Phase, store: Counters, tokenID: string, p: Period, t: int)
    requires Exact(s, tokenID, p, t) && i < |s.attempts|
    requires var a, b := s.attempts[i], s.attempts[i].(phase := phase);
             && (HasCount(a) <==> HasCount(b))
             && (HasCount(a) ==>
                   a.phase.now == b.phase.now && a.phase.at == b.phase.at && a.phase.count == b.phase.count)
    requires CounterKept(s, store, tokenID, p, t)
    ensures Exact(Move(s, i, phase, store), tokenID, p, t)
  {
    hide WindowOf, CounterKey;
    var s' := Move(s, i, phase, store);
    assert CountedIn(s', tokenID, p, t) == CountedIn(s, tokenID, p, t);
    SameCountedKeepsExact(s, s', tokenID, p, t);
  }

  /** An attempt not counted in the window may end as it likes. */
  lemma GoneKeepsExact(s: State, i: nat, store: Counters, tokenID: string, p: Period, t: int)
    requires Exact(s, tokenID, p, t) && i < |s.attempts| && i !in CountedIn(s, tokenID, p, t)
    requires CounterKept(s, store, tokenID, p, t)
    ensures Exact(Move(s, i, Gone, store), tokenID, p, t)
  {
    hide WindowOf, CounterKey;
    var s' := Move(s, i, Gone, store);
    assert CountedIn(s', tokenID, p, t) == CountedIn(s, tokenID, p, t);
    SameCountedKeepsExact(s, s', tokenID, p, t);
  }

  lemma IncrKeepsExact(s: State, i: nat, tokenID: string, p: Period, t: int)
    requires Good(s) && Enabled(s, Incr(i)) && Exact(s, tokenID, p, t)
    ensures Exact(Apply(s, Incr(i)), tokenID, p, t)
  {
    hide WindowOf, CounterKey, Good;
    var s' := Apply(s, Incr(i));
    var a := s.attempts[i];
    var key := CounterKey(tokenID, p, WindowOf(p, t).start);
    if Key(a) == key {
      KeyInjective(tokenID, p, t, a.request.tokenID, a.request.period, a.phase.now);
      if s.clock < WindowOf(p, t).end {
        IncrCounts(s, i, tokenID, p, t);
      } else {
        assert CountedIn(s', tokenID, p, t) == CountedIn(s, tokenID, p, t);
        SameCountedKeepsExact(s, s', tokenID, p, t);
      }
    } else {
      assert CountedIn(s', tokenID, p, t) == CountedIn(s, tokenID, p, t);
      SameCountedKeepsExact(s, s', tokenID, p, t);
    }
  }

  /** An INCR inside the window adds one attempt and hands it the next count. */
  lemma IncrCounts(s: State, i: nat, tokenID: string, p: Period, t: int)
    requires Enabled(s, Incr(i)) && Exact(s, tokenID, p, t)
    requires s.attempts[i].request.tokenID == tokenID && s.attempts[i].request.period == p
    requires WindowOf(p, s.attempts[i].phase.now) == WindowOf(p, t) && s.clock < WindowOf(p, t).end
    ensures Exact(Apply(s, Incr(i)), tokenID, p, t)
  {
    hide WindowOf, CounterKey;
    var s' := Apply(s, Incr(i));
    var before, after := CountedIn(s, tokenID, p, t), CountedIn(s', tokenID, p, t);
    assert i !in before;
    assert after == before + {i};
    forall j | j in after
      ensures CountOf(s', j) <= |after|
    {
      if j != i {
        assert CountOf(s', j) == CountOf(s, j);
      }
    }
  }

  lemma FaultKeepsExact(s: State, step: Step, tokenID: string, p: Period, t: int)
    requires Exact(s, tokenID, p, t) && Enabled(s, step) && !Disturbs(s, step, tokenID, p, t)
    requires step.IncrFails? || step.ExpireFails? || step.Crash?
    ensures Exact(Apply(s, step), tokenID, p, t)
  {
    hide WindowOf, CounterKey, Exact;
    match step
    case IncrFails(i, applied) =>
      GoneKeepsExact(s, i, if applied then Incremented(s.store, Key(s.attempts[i])) else s.store, tokenID, p, t);
    case ExpireFails(i, applied) =>
      var a := s.attempts[i];
      GoneKeepsExact(s, i, if applied then Expiring(s.store, Key(a), s.clock + (End(a) - a.phase.now)) else s.store,
                     tokenID, p, t);
    case Crash(i) =>
      GoneKeepsExact(s, i, s.store, tokenID, p, t);
  }

  lemma StepKeepsExact(s: State, step: Step, tokenID: string, p: Period, t: int)
    requires Good(s) && Exact(s, tokenID, p, t) && Enabled(s, step) && !Disturbs(s, step, tokenID, p, t)
    ensures Exact(Apply(s, step), tokenID, p, t)
  {
    hide CounterKey, WindowOf, Good, Exact, Disturbs;
    match step
    case Tick(to) => TickKeepsExact(s, to, tokenID, p, t);
    case Arrive(r) => ArriveKeepsExact(s, r, tokenID, p, t);
    case ReadClock(i) => MoveKeepsExact(s, i, Clocked(s.clock), s.store, tokenID, p, t);
    case Incr(i) => IncrKeepsExact(s, i, tokenID, p, t);
    case Expire(i) =>
      var a := s.attempts[i];
      MoveKeepsExact(s, i, Armed(a.phase.now, a.phase.count, a.phase.at),
                     Expiring(s.store, Key(a), s.clock + (End(a) - a.phase.now)), tokenID, p, t);
    case Decide(i) =>
      var a := s.attempts[i];
      MoveKeepsExact(s, i, Decided(a.phase.now, a.phase.count, a.phase.at, a.phase.count <= a.request.limit),
                     s.store, tokenID, p, t);
    case _ => FaultKeepsExact(s, step, tokenID, p, t);
  }

  lemma {:induction false} UndisturbedRunsKeepExact(
    clock: int, steps: seq<Step>, tokenID: string, p: Period, t: int)
    requires Undisturbed(clock, steps, tokenID, p, t)
    ensures After(clock, steps).Some? ==> Exact(After(clock, steps).value, tokenID, p, t)
  {
    hide Good, Enabled, Apply, Exact, Disturbs;
    if steps == [] {
      InitialIsExact(clock, tokenID, p, t);
    } else {
      var front := steps[..|steps| - 1];
      UndisturbedRunsKeepExact(clock, front, tokenID, p, t);
      RunsKeepGood(clock, front);
      if After(clock, steps).Some? {
        StepKeepsExact(After(clock, front).value, steps[|steps| - 1], tokenID, p, t);
      }
    }
  }

  lemma InitialIsExact(clock: int, tokenID: string, p: Period, t: int)
    ensures Exact(Initial(clock), tokenID, p, t)
  {
    hide CounterKey, WindowOf;
    assert CountedIn(Initial(clock), tokenID, p, t) == {};
  }

  /** When no INCR on the window's counter fails after taking effect and no attempt counted
      in it fails to arm it or stops, the n attempts of one token counted inside the window
      get exactly min(n, limit) allowed decisions, none when the limit is negative. */
  lemma ExactlyTheLimit(clock: int, steps: seq<Step>, tokenID: string, p: Period, t: int, limit: int)
    requires After(clock, steps).Some?
    requires Undisturbed(clock, steps, tokenID, p, t)
    requires var s := After(clock, steps).value;
             forall i :: i in CountedIn(s, tokenID, p, t) ==>
               s.attempts[i].phase.Decided? && s.attempts[i].request.limit == limit
    ensures var s := After(clock, steps).value;
            var n := |CountedIn(s, tokenID, p, t)|;
            |AllowedIn(s, tokenID, p, t)| == if n < limit then n else if limit < 0 then 0 else limit
  {
    hide After, WindowOf, CounterKey, OutlivesWindow, Covered, CountOf;
    var s := After(clock, steps).value;
    RunsKeepGood(clock, steps);
    UndisturbedRunsKeepExact(clock, steps, tokenID, p, t);
    var counted := CountedIn(s, tokenID, p, t);
    var f := (i: nat) => CountOf(s, i);
    forall i | i in counted
      ensures 1 <= f(i) <= |counted|
      ensures i in AllowedIn(s, tokenID, p, t) <==> f(i) <= limit
    {
      CountIsCount(s, i);
      assert PhaseSane(s.clock, s.attempts[i]);
    }
    forall i, j | i in counted && j in counted && i != j
      ensures f(i) != f(j)
    {
      CountsDistinct(s, tokenID, p, t, i, j);
    }
    var most := if limit < 0 then 0 else limit;
    RanksUpTo(counted, f, most);
    assert AllowedIn(s, tokenID, p, t) == set i | i in counted && f(i) <= most;
  }

  // -------------------------------------------------- why an INCR has to run in its window

  lemma RunOn(clock: int, steps: seq<Step>, s: State, step: Step, t: State)
    requires After(clock, steps) == Some(s) && Enabled(s, step) && Apply(s, step) == t
    ensures After(clock, steps + [step]) == Some(t)
  {
    hide Enabled, Apply;
    assert (steps + [step])[..|steps|] == steps;
  }

  /** Two checks read the clock at the origin, and the first is counted and decided. */
  ghost function FirstSteps(r: Request): seq<Step> {
    [] + [Arrive(r)] + [Arrive(r)] + [ReadClock(0)] + [ReadClock(1)] + [Incr(0)] + [Expire(0)] + [Decide(0)]
  }

  /** Then a second passes before the other is counted and decided. */
  ghost function LateSteps(r: Request): seq<Step> {
    FirstSteps(r) + [Tick(SECOND)] + [Incr(1)] + [Expire(1)] + [Decide(1)]
  }

  lemma BothReadTheClock(r: Request)
    ensures After(0, [] + [Arrive(r)] + [Arrive(r)] + [ReadClock(0)] + [ReadClock(1)]) ==
            Some(State(0, map[], [Attempt(r, Clocked(0)), Attempt(r, Clocked(0))]))
  {
    NothingYet();
    hide After, AttemptKey;
    var a, c := Attempt(r, Arrived), Attempt(r, Clocked(0));
    RunOn(0, [], State(0, map[], []), Arrive(r), State(0, map[], [a]));
    var steps := [] + [Arrive(r)];
    RunOn(0, steps, State(0, map[], [a]), Arrive(r), State(0, map[], [a, a]));
    steps := steps + [Arrive(r)];
    RunOn(0, steps, State(0, map[], [a, a]), ReadClock(0), State(0, map[], [c, a]));
    RunOn(0, steps + [ReadClock(0)], State(0, map[], [c, a]), ReadClock(1), State(0, map[], [c, c]));
  }

  lemma FirstIsAllowed(r: Request)
    requires r.period == Second && r.limit == 1
    ensures After(0, FirstSteps(r)) ==
            Some(State(0, map[AttemptKey(r, 0) := Counter(1, Some(SECOND))],
                       [Attempt(r, Decided(0, 1, 0, true)), Attempt(r, Clocked(0))]))
  {
    BothReadTheClock(r);
    hide After, AttemptKey;
    var key, c := AttemptKey(r, 0), Attempt(r, Clocked(0));
    var steps := [] + [Arrive(r)] + [Arrive(r)] + [ReadClock(0)] + [ReadClock(1)];
    var counted := State(0, map[key := Counter(1, None)], [Attempt(r, Counted(0, 1, 0)), c]);
    RunOn(0, steps, State(0, map[], [c, c]), Incr(0), counted);
    steps := steps + [Incr(0)];
    var armed := State(0, map[key := Counter(1, Some(SECOND))], [Attempt(r, Armed(0, 1, 0)), c]);
    RunOn(0, steps, counted, Expire(0), armed);
    RunOn(0, steps + [Expire(0)], armed, Decide(0), armed.(attempts := [Attempt(r, Decided(0, 1, 0, true)), c]));
  }

  lemma NothingYet()
    ensures After(0, []) == Some(State(0, map[], []))
  {
  }

  /** What is left of the store once the first counter's second is over. */
  lemma NothingSurvives(r: Request)
    requires r.period == Second && r.limit == 1
    ensures After(0, FirstSteps(r) + [Tick(SECOND)]) ==
            Some(State(SECOND, map[], [Attempt(r, Decided(0, 1, 0, true)), Attempt(r, Clocked(0))]))
  {
    FirstIsAllowed(r);
    hide After, AttemptKey, FirstSteps;
    var attempts := [Attempt(r, Decided(0, 1, 0, true)), Attempt(r, Clocked(0))];
    RunOn(0, FirstSteps(r), State(0, map[AttemptKey(r, 0) := Counter(1, Some(SECOND))], attempts), Tick(SECOND),
          State(SECOND, map[], attempts));
  }

  /** An attempt that is the first to count, counted and decided alone. */
  lemma CountedAlone(steps: seq<Step>, clock: int, done: Attempt, r: Request)
    requires r.period == Second && r.limit == 1
    requires After(0, steps) == Some(State(clock, map[], [done, Attempt(r, Clocked(0))]))
    ensures After(0, steps + [Incr(1)] + [Expire(1)] + [Decide(1)]) ==
            Some(State(clock, map[AttemptKey(r, 0) := Counter(1, Some(clock + SECOND))],
                       [done, Attempt(r, Decided(0, 1, clock, true))]))
  {
    hide After, AttemptKey;
    var key := AttemptKey(r, 0);
    var counted := State(clock, map[key := Counter(1, None)], [done, Attempt(r, Counted(0, 1, clock))]);
    var armed := State(clock, map[key := Counter(1, Some(clock + SECOND))], [done, Attempt(r, Armed(0, 1, clock))]);
    RunOn(0, steps, State(clock, map[], [done, Attempt(r, Clocked(0))]), Incr(1), counted);
    RunOn(0, steps + [Incr(1)], counted, Expire(1), armed);
    RunOn(0, steps + [Incr(1)] + [Expire(1)], armed, Decide(1),
          armed.(attempts := [done, Attempt(r, Decided(0, 1, clock, true))]));
  }

  /** An INCR that runs after its window has ended finds the counter gone: with a limit of
      one, both checks of one window are allowed. */
  lemma LateIncrIsAllowedAgain(r: Request)
    requires r.period == Second && r.limit == 1
    ensures After(0, LateSteps(r)).Some?
    ensures var s := After(0, LateSteps(r)).value;
            && Allowed(s, 0) && Allowed(s, 1) && InTime(s.attempts[0]) && !InTime(s.attempts[1])
            && s.attempts[0].request == s.attempts[1].request == r
            && s.attempts[0].phase.now == s.attempts[1].phase.now
  {
    hide After, AttemptKey, FirstSteps;
    NothingSurvives(r);
    CountedAlone(FirstSteps(r) + [Tick(SECOND)], SECOND, Attempt(r, Decided(0, 1, 0, true)), r);
  }

  // ------------------------------------------------------------ one check, start to end

  datatype Token = Token(id: string, limit: Option<int>, period: Option<string>)

  datatype Verdict = Verdict(allowed: bool, retryAfter: int)

  datatype LimitError = NoPeriod | UnknownPeriod | CounterFailed | ExpiryFailed

  /** How a store call ends: fine, or with an error before or after it took effect. */
  datatype Fault = Works | FailsBefore | FailsAfter

  /** The slice of the shared store the limiter uses. */
  class RateLimitStore {
    var counters: Counters

    constructor ()
      ensures counters == map[]
    {
      counters := map[];
    }

    method Incr(key: string, fault: Fault) returns (count: Option<int>)
      modifies this
      ensures counters == if fault.FailsBefore? then old(counters) else Incremented(old(counters), key)
      ensures count == if fault.Works? then Some(counters[key].value) else None
    {
      if fault.FailsBefore? {
        return None;
      }
      if key in counters {
        counters := counters[key := counters[key].(value := counters[key].value + 1)];
      } else {
        counters := counters[key := Counter(1, None)];
      }
      return if fault.Works? then Some(counters[key].value) else None;
    }

    method Expire(key: string, deadline: int, fault: Fault) returns (ok: bool)
      modifies this
      ensures counters == if fault.FailsBefore? then old(counters) else Expiring(old(counters), key, deadline)
      ensures ok <==> fault.Works?
    {
      if !fault.FailsBefore? && key in counters {
        counters := counters[key := counters[key].(deadline := Some(deadline))];
      }
      return fault.Works?;
    }
  }

  /** One attempt taking the protocol's steps alone: clock read at `now`, EXPIRE, if it is
      its turn to send one, at `later`. */
  ghost function Alone(r: Request, store: Counters, now: int, later: int, incr: Fault, expire: Fault): (s: State)
    ensures |s.attempts| == 1
  {
    var s := Apply(State(now, store, [Attempt(r, Arrived)]), ReadClock(0));
    if !incr.Works? then Apply(s, IncrFails(0, incr.FailsAfter?))
    else
      var counted := Apply(s, Incr(0));
      if counted.attempts[0].phase.count != 1 then Apply(counted, Decide(0))
      else if !expire.Works? then Apply(counted.(clock := later), ExpireFails(0, expire.FailsAfter?))
      else Apply(Apply(counted.(clock := later), Expire(0)), Decide(0))
  }

  /** What an attempt's last phase answers its caller. */
  ghost function Answer(a: Attempt, incr: Fault): Result<Verdict, LimitError> {
    if !a.phase.Decided? then Failure(if incr.Works? then ExpiryFailed else CounterFailed)
    else if a.phase.allowed then Success(Verdict(true, 0))
    else Success(Verdict(false, End(a) - a.phase.now))
  }

  ghost function StoreAfter(store: Counters, key: string, deadline: int, incr: Fault, expire: Fault): Counters {
    var counted := Incremented(store, key);
    if incr.FailsBefore? then store
    else if incr.FailsAfter? || counted[key].value != 1 || expire.FailsBefore? then counted
    else Expiring(counted, key, deadline)
  }

  ghost function AnswerAfter(store: Counters, key: string, limit: int, left: int, incr: Fault, expire: Fault)
    : Result<Verdict, LimitError>
  {
    var count := Incremented(store, key)[key].value;
    if !incr.Works? then Failure(CounterFailed)
    else if count == 1 && !expire.Works? then Failure(ExpiryFailed)
    else Success(if count <= limit then Verdict(true, 0) else Verdict(false, left))
  }

  lemma AloneStepByStep(r: Request, store: Counters, now: int, later: int, incr: Fault, expire: Fault)
    ensures var key := AttemptKey(r, now);
            var left := WindowOf(r.period, now).end - now;
            var s := Alone(r, store, now, later, incr, expire);
            && s.store == StoreAfter(store, key, later + left, incr, expire)
            && Answer(s.attempts[0], incr) == AnswerAfter(store, key, r.limit, left, incr, expire)
  {
    hide WindowOf, CounterKey, Expiring;
  }

  /** What one attempt leaves and answers, on its counter's value and deadline. */
  lemma CountedMeans(
    store: Counters, key: string, limit: int, left: int, deadline: int, incr: Fault, expire: Fault)
    ensures var now, r := StoreAfter(store, key, deadline, incr, expire),
                          AnswerAfter(store, key, limit, left, incr, expire);
            var was := if key in store then store[key] else Counter(0, None);
            && (incr.FailsBefore? ==> now == store)
            && (!incr.FailsBefore? ==>
                  && key in now && now == store[key := now[key]] && now[key].value == was.value + 1
                  && now[key].deadline
                     == if incr.Works? && was.value == 0 && !expire.FailsBefore? then Some(deadline) else was.deadline)
            && (r.Success? <==> incr.Works? && (was.value != 0 || expire.Works?))
            && (r.Success? ==> (r.value.allowed <==> was.value + 1 <= limit))
            && (r.Success? && !r.value.allowed ==> r.value.retryAfter == left)
            && (r.Failure? ==> r.error == if incr.Works? then ExpiryFailed else CounterFailed)
  {
  }

  method CountAttempt(
    store: RateLimitStore, key: string, limit: int, left: int, later: int, incr: Fault, expire: Fault)
    returns (r: Result<Verdict, LimitError>)
    modifies store
    ensures store.counters == StoreAfter(old(store.counters), key, later + left, incr, expire)
    ensures r == AnswerAfter(old(store.counters), key, limit, left, incr, expire)
  {
    hide Expiring;
    var count := store.Incr(key, incr);
    if count.None? {
      return Failure(CounterFailed);
    }
    if count.value == 1 {
      var ok := store.Expire(key, later + left, expire);
      if !ok {
        return Failure(ExpiryFailed);
      }
    }
    if count.value <= limit {
      return Success(Verdict(true, 0));
    }
    return Success(Verdict(false, left));
  }

  /** A token without a limit touches nothing; a limit without a usable period fails; any
      other check leaves the store, and answers, as the protocol's steps do. */
  method CheckRateLimit(
    store: RateLimitStore, token: Token, now: int, later: int, incr: Fault, expire: Fault)
    returns (r: Result<Verdict, LimitError>)
    modifies store
    ensures token.limit.None? ==> r == Success(Verdict(true, 0)) && store.counters == old(store.counters)
    ensures token.limit.Some? && token.period.None? ==> r == Failure(NoPeriod) && store.counters == old(store.counters)
    ensures token.limit.Some? && token.period.Some? && ParsePeriod(token.period.value).None? ==>
              r == Failure(UnknownPeriod) && store.counters == old(store.counters)
    ensures token.limit.Some? && token.period.Some? && ParsePeriod(token.period.value).Some? ==>
              var request := Request(token.id, token.limit.value, ParsePeriod(token.period.value).value);
              var end := Alone(request, old(store.counters), now, later, incr, expire);
              store.counters == end.store && r == Answer(end.attempts[0], incr)
    // The same on the counter itself and the window that holds `now`.
    ensures token.limit.Some? && token.period.Some? && ParsePeriod(token.period.value).Some? ==>
              var window := WindowOf(ParsePeriod(token.period.value).value, now);
              var key := CounterKey(token.id, ParsePeriod(token.period.value).value, window.start);
              var was := if key in old(store.counters) then old(store.counters)[key] else Counter(0, None);
              && (incr.FailsBefore? ==> store.counters == old(store.counters))
              && (!incr.FailsBefore? ==>
                    && key in store.counters && store.counters == old(store.counters)[key := store.counters[key]]
                    && store.counters[key].value == was.value + 1
                    && store.counters[key].deadline
                       == if incr.Works? && was.value == 0 && !expire.FailsBefore? then Some(later + window.end - now)
                          else was.deadline)
              && (r.Success? <==> incr.Works? && (was.value != 0 || expire.Works?))
              && (r.Success? ==> (r.value.allowed <==> was.value + 1 <= token.limit.value))
              && (r.Success? && !r.value.allowed ==>
                    now + r.value.retryAfter == window.end && r.value.retryAfter > 0)
              && (r.Failure? ==> r.error == if incr.Works? then ExpiryFailed else CounterFailed)
  {
    hide WindowOf, CounterKey, Alone, Answer, ParsePeriod, StoreAfter, AnswerAfter;
    if token.limit.None? {
      return Success(Verdict(true, 0));
    }
    if token.period.None? {
      return Failure(NoPeriod);
    }
    var bounds := WindowBounds(token.period.value, now);
    if bounds.Failure? {
      return Failure(UnknownPeriod);
    }
    var window := bounds.value;
    var period := ParsePeriod(token.period.value).value;
    var key := CounterKey(token.id, period, window.start);
    WindowsTile(period, now, now);
    CountedMeans(store.counters, key, token.limit.value, window.end - now, later + (window.end - now), incr, expire);
    AloneStepByStep(Request(token.id, token.limit.value, period), store.counters, now, later, incr, expire);
    r := CountAttempt(store, key, token.limit.value, window.end - now, later, incr, expire);
  }
}
