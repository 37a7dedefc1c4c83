/**
 The timed log-level override: `set` and the timer callbacks that undo it,
 interleaved at the granularity of the handler's mutex.

 A timer that has fired holds a callback waiting for the mutex; stopping it then
 has no effect, which is what Go's time.Timer promises. Times are nanoseconds
 after Go's zero time; `revertAt` is zero when no override is announced.
 */
module LogLevel {
  import opened Wrappers
  import opened Machine

  type Level = int

  const SECOND := 1_000_000_000
  const DEFAULT_TTL := 900 * SECOND
  const MAX_TTL := 3600 * SECOND

  // ---- requests -------------------------------------------------------------

  /** Go's wrap-around of a 64-bit product */
  function Wrap64(x: int): Int64 {
    (x + TWO63) % TWO64 - TWO63
  }

  /** The TTL `set` works with */
  function TtlOf(ttlS: Int64): Int64 {
    if ttlS == 0 then DEFAULT_TTL else Wrap64(ttlS * SECOND)
  }

  predicate TtlAccepted(ttlS: Int64) {
    0 < TtlOf(ttlS) <= MAX_TTL
  }

  /** What the product with time.Second keeps of ttlS: a second is 512 * 5^9
      nanoseconds, so 2^64 nanoseconds leave the remainder of ttlS * 5^9 by 2^55. */
  function Kept(ttlS: Int64): nat {
    ttlS * 1_953_125 % 0x80_0000_0000_0000
  }

  lemma WrappedSeconds(ttlS: Int64)
    ensures Wrap64(ttlS * SECOND) % TWO64 == 512 * Kept(ttlS)
  {
    WrapMod(ttlS * SECOND);
    ScaledMod(ttlS * 1_953_125);
    hide Wrap64;
    assert ttlS * SECOND == 512 * (ttlS * 1_953_125);
  }

  lemma ScaledMod(x: int)
    ensures 512 * x % TWO64 == 512 * (x % 0x80_0000_0000_0000)
  {
    var q, r := x / 0x80_0000_0000_0000, x % 0x80_0000_0000_0000;
    assert 512 * x == q * TWO64 + 512 * r;
  }

  lemma WrapMod(x: int)
    ensures Wrap64(x) % TWO64 == x % TWO64
  {
  }

  /** Exactly which requests are accepted, and for how long: the documented 1 to
      3600 and 0 for the default, short of the overflow of the product; beyond it,
      whatever wraps into the hour. */
  lemma TtlRange(ttlS: Int64)
    ensures TtlAccepted(ttlS) <==> ttlS == 0 || 0 < Kept(ttlS) <= 7_031_250_000
    ensures TtlAccepted(ttlS) && ttlS != 0 ==> TtlOf(ttlS) == 512 * Kept(ttlS)
    ensures -9_223_372_036 <= ttlS <= 9_223_372_036 ==> (TtlAccepted(ttlS) <==> 0 <= ttlS <= 3600)
    ensures 0 < ttlS <= 3600 ==> TtlOf(ttlS) == ttlS * SECOND
  {
    WrappedSeconds(ttlS);
    hide Kept;
    var w := Wrap64(ttlS * SECOND);
    assert w >= 0 ==> w % TWO64 == w;
    assert w < 0 ==> w % TWO64 == w + TWO64;
    if -9_223_372_036 <= ttlS <= 9_223_372_036 {
      assert w == ttlS * SECOND;
    }
  }

  /** Beyond it the product wraps: 2^55 + 5 seconds is accepted, as 5 seconds. */
  lemma TtlWraps()
    ensures TtlAccepted(0x80_0000_0000_0005) && TtlOf(0x80_0000_0000_0005) == 5 * SECOND
  {
  }

  // ---- state ----------------------------------------------------------------

  datatype Phase = Pending | Fired | Stopped | Done

  datatype Timer = Timer(setAt: Instant, deadline: Instant, phase: Phase)

  datatype State = State(
    clock: Instant, base: Level, level: Level, revertAt: int, cancel: Option<nat>, timers: seq<Timer>)

  datatype Event =
    | Advance(to: Instant)
    | Set(level: Level, ttl: int)
    | Fire(id: nat)
    | Callback(id: nat)

  function Boot(clock: Instant, base: Level): State {
    State(clock, base, base, 0, None, [])
  }

  predicate In(s: State, k: nat, p: Phase) {
    k < |s.timers| && s.timers[k].phase == p
  }

  /** Timer.Stop: only a pending timer is stopped. */
  function Stop(ts: seq<Timer>, k: nat): seq<Timer> {
    if k < |ts| && ts[k].phase == Pending then ts[k := ts[k].(phase := Stopped)] else ts
  }

  function AfterStop(s: State): (ts: seq<Timer>)
    ensures |ts| == |s.timers|
  {
    if s.cancel.Some? then Stop(s.timers, s.cancel.value) else s.timers
  }

  function SetStep(s: State, level: Level, ttl: int): State
    requires 0 < ttl
  {
    s.(level := level, revertAt := s.clock + ttl, cancel := Some(|s.timers|),
       timers := AfterStop(s) + [Timer(s.clock, s.clock + ttl, Pending)])
  }

  function CallbackStep(s: State, k: nat): State
    requires k < |s.timers|
  {
    s.(level := s.base, revertAt := 0, cancel := None, timers := s.timers[k := s.timers[k].(phase := Done)])
  }

  function Next(s: State, e: Event): Option<State> {
    match e
    case Advance(to) => if s.clock <= to then Some(s.(clock := to)) else None
    case Set(level, ttl) => if 0 < ttl <= MAX_TTL then Some(SetStep(s, level, ttl)) else None
    case Fire(k) =>
      if In(s, k, Pending) && s.timers[k].deadline <= s.clock
      then Some(s.(timers := s.timers[k := s.timers[k].(phase := Fired)])) else None
    case Callback(k) => if In(s, k, Fired) then Some(CallbackStep(s, k)) else None
  }

  function Run(s: State, es: seq<Event>): Option<State>
    decreases |es|
  {
    if es == [] then Some(s)
    else
      var next := Next(s, es[0]);
      if next.None? then None else Run(next.value, es[1..])
  }

  // ---- an override is never permanent ----------------------------------------

  predicate Outstanding(t: Timer) {
    t.phase == Pending || t.phase == Fired
  }

  /** While an override is announced, the latest timer is the one that will end
      it; with none announced, the level is the base. */
  ghost predicate Inv(s: State) {
    && (forall k | 0 <= k < |s.timers| ::
          s.timers[k].setAt < s.timers[k].deadline <= s.timers[k].setAt + MAX_TTL && s.timers[k].setAt <= s.clock)
    && (s.cancel.None? ==> s.level == s.base && s.revertAt == 0)
    && (s.cancel.Some? ==>
          && |s.timers| > 0
          && s.cancel.value == |s.timers| - 1
          && Outstanding(s.timers[|s.timers| - 1])
          && s.revertAt == s.timers[|s.timers| - 1].deadline)
  }

  lemma StepKeeps(s: State, e: Event)
    requires Inv(s) && Next(s, e).Some?
    ensures Inv(Next(s, e).value) && Next(s, e).value.base == s.base
  {
    if e.Set? {
      hide Next;
      SetKeeps(s, e.level, e.ttl);
    }
  }

  lemma SetKeeps(s: State, level: Level, ttl: int)
    requires Inv(s) && Next(s, Set(level, ttl)).Some?
    ensures Inv(Next(s, Set(level, ttl)).value) && Next(s, Set(level, ttl)).value.base == s.base
  {
    var s' := SetStep(s, level, ttl);
    forall k | 0 <= k < |s.timers|
      ensures s'.timers[k].setAt == s.timers[k].setAt && s'.timers[k].deadline == s.timers[k].deadline
    {
    }
  }

  lemma {:induction false} RunKeeps(s: State, es: seq<Event>)
    requires Inv(s) && Run(s, es).Some?
    ensures Inv(Run(s, es).value) && Run(s, es).value.base == s.base
    decreases |es|
  {
    hide Inv, Next;
    if es != [] {
      StepKeeps(s, es[0]);
      RunKeeps(Next(s, es[0]).value, es[1..]);
    }
  }

  /** In every interleaving, with callbacks running late or after a failed
      cancel: a level other than the base has the latest set's timer pending or
      its callback waiting, due at most 3600 s after that set, and announced. */
  lemma NeverPermanent(clock: Instant, base: Level, es: seq<Event>)
    requires Run(Boot(clock, base), es).Some?
    requires Run(Boot(clock, base), es).value.level != base
    ensures var s := Run(Boot(clock, base), es).value;
            && |s.timers| > 0
            && var t := s.timers[|s.timers| - 1];
            && (t.phase == Pending || t.phase == Fired)
            && t.deadline <= t.setAt + MAX_TTL
            && s.revertAt == t.deadline != 0
  {
    RunKeeps(Boot(clock, base), es);
  }

  /** Once the last deadline has passed and no due timer or callback is left to
      run, the level is the base again. */
  lemma QuiescentIsBase(clock: Instant, base: Level, es: seq<Event>)
    requires Run(Boot(clock, base), es).Some?
    requires var s := Run(Boot(clock, base), es).value;
             && (forall k | 0 <= k < |s.timers| :: s.timers[k].phase != Fired)
             && (forall k | 0 <= k < |s.timers| && s.timers[k].phase == Pending :: s.clock < s.timers[k].deadline)
             && (|s.timers| > 0 ==> s.timers[|s.timers| - 1].setAt + MAX_TTL <= s.clock)
    ensures Run(Boot(clock, base), es).value.level == base
  {
    RunKeeps(Boot(clock, base), es);
  }

  // ---- does an override last until its own deadline? --------------------------

  predicate NoSet(es: seq<Event>) {
    forall i | 0 <= i < |es| :: !es[i].Set?
  }

  /** Until another set, whatever timers and callbacks do, the level stays until
      the deadline that set announced. */
  ghost predicate Lasts(s: State, level: Level, deadline: int) {
    forall es | NoSet(es) && Run(s, es).Some? && Run(s, es).value.clock < deadline :: Run(s, es).value.level == level
  }

  /** What a caller can check before the set: no callback is waiting, and every
      timer the set will not stop is due no earlier than the new deadline. */
  predicate NothingStale(s: State, ttl: int) {
    forall k | 0 <= k < |s.timers| ::
      && s.timers[k].phase != Fired
      && (s.timers[k].phase == Pending && s.cancel != Some(k) ==> s.timers[k].deadline >= s.clock + ttl)
  }

  /** No timer can end the override before d. */
  predicate Quiet(s: State, d: int) {
    forall k | 0 <= k < |s.timers| ::
      s.timers[k].phase != Fired && (s.timers[k].phase == Pending ==> s.timers[k].deadline >= d)
  }

  lemma {:induction false} QuietLasts(s: State, d: int, es: seq<Event>)
    requires Quiet(s, d) && NoSet(es) && Run(s, es).Some? && Run(s, es).value.clock < d
    ensures Run(s, es).value.level == s.level
    decreases |es|
  {
    if es != [] {
      var next := Next(s, es[0]).value;
      ClockGrows(next, es[1..]);
      assert NoSet(es[1..]);
      assert !es[0].Set?;
      QuietLasts(next, d, es[1..]);
    }
  }

  lemma {:induction false} ClockGrows(s: State, es: seq<Event>)
    requires Run(s, es).Some?
    ensures s.clock <= Run(s, es).value.clock
    decreases |es|
  {
    if es != [] { ClockGrows(Next(s, es[0]).value, es[1..]); }
  }

  /** An override other than the base lasts until its own deadline, in every
      continuation without another set, exactly when nothing stale is left. */
  lemma OverrideLasts(s: State, level: Level, ttl: int)
    requires 0 < ttl <= MAX_TTL && level != s.base
    ensures Lasts(SetStep(s, level, ttl), level, s.clock + ttl) <==> NothingStale(s, ttl)
  {
    var s', d := SetStep(s, level, ttl), s.clock + ttl;
    if NothingStale(s, ttl) {
      assert Quiet(s', d);
      forall es | NoSet(es) && Run(s', es).Some? && Run(s', es).value.clock < d
        ensures Run(s', es).value.level == level
      {
        QuietLasts(s', d, es);
      }
    } else {
      var k :| 0 <= k < |s.timers| && (s.timers[k].phase == Fired ||
        (s.timers[k].phase == Pending && s.cancel != Some(k) && s.timers[k].deadline < d));
      assert s'.timers[k] == s.timers[k];
      StaleEndsIt(s', k, d);
    }
  }

  /** A waiting callback, or a timer due before d, ends the override early. */
  lemma StaleEndsIt(s: State, k: nat, d: int)
    requires s.clock < d && s.level != s.base && k < |s.timers|
    requires s.timers[k].phase == Fired || (s.timers[k].phase == Pending && s.timers[k].deadline < d)
    ensures !Lasts(s, s.level, d)
  {
    hide Lasts;
    if s.timers[k].phase == Fired {
      Step1(s, Callback(k));
      Witness(s, [Callback(k)], d);
    } else {
      var to: Instant := if s.clock < s.timers[k].deadline then s.timers[k].deadline else s.clock;
      var s1 := Next(s, Advance(to)).value;
      var s2 := Next(s1, Fire(k)).value;
      Step1(s2, Callback(k));
      StepCons(s1, Fire(k), [Callback(k)]);
      assert [Fire(k)] + [Callback(k)] == [Fire(k), Callback(k)];
      StepCons(s, Advance(to), [Fire(k), Callback(k)]);
      assert [Advance(to)] + [Fire(k), Callback(k)] == [Advance(to), Fire(k), Callback(k)];
      Witness(s, [Advance(to), Fire(k), Callback(k)], d);
    }
  }

  lemma Witness(s: State, es: seq<Event>, d: int)
    requires NoSet(es) && Run(s, es).Some? && Run(s, es).value.clock < d && Run(s, es).value.level != s.level
    ensures !Lasts(s, s.level, d)
  {
  }

  lemma Step1(s: State, e: Event)
    requires Next(s, e).Some?
    ensures Run(s, [e]) == Next(s, e)
  {
    assert [e][1..] == [];
  }

  lemma StepCons(s: State, e: Event, es: seq<Event>)
    requires Next(s, e).Some?
    ensures Run(s, [e] + es) == Run(Next(s, e).value, es)
  {
    assert ([e] + es)[1..] == es;
  }

  /** The failure is reachable: a second set finds the first timer fired, so its
      callback ends the new override at once, and orphans its timer. */
  lemma StaleCallbackReachable(clock: Instant, base: Level, level: Level)
    requires level != base
    ensures var first := [Set(level, 10), Advance(clock + 10), Fire(0)];
            && Run(Boot(clock, base), first).Some?
            && var s := Run(Boot(clock, base), first).value;
            !Lasts(SetStep(s, level, 100), level, s.clock + 100)
  {
    var s0 := Boot(clock, base);
    var s1 := Next(s0, Set(level, 10)).value;
    var s2 := Next(s1, Advance(clock + 10)).value;
    var s3 := Next(s2, Fire(0)).value;
    Step1(s2, Fire(0));
    StepCons(s1, Advance(clock + 10), [Fire(0)]);
    assert [Advance(clock + 10)] + [Fire(0)] == [Advance(clock + 10), Fire(0)];
    StepCons(s0, Set(level, 10), [Advance(clock + 10), Fire(0)]);
    assert [Set(level, 10)] + [Advance(clock + 10), Fire(0)] == [Set(level, 10), Advance(clock + 10), Fire(0)];
    assert s3.timers[0].phase == Fired;
    assert !NothingStale(s3, 100);
    hide Lasts;
    OverrideLasts(s3, level, 100);
  }

  // ---- prompt callbacks ---------------------------------------------------------

  /** Every set finds no callback waiting: no cancel of a fired timer is ever
      attempted. */
  predicate Prompt(s: State, es: seq<Event>)
    requires Run(s, es).Some?
    decreases |es|
  {
    es != [] ==>
      && (es[0].Set? ==> forall k | 0 <= k < |s.timers| :: s.timers[k].phase != Fired)
      && Prompt(Next(s, es[0]).value, es[1..])
  }

  /** At most one timer is outstanding, and it is the one `cancel` stops. */
  ghost predicate OneTimer(s: State) {
    forall k | 0 <= k < |s.timers| && Outstanding(s.timers[k]) :: s.cancel == Some(k)
  }

  lemma PromptStep(s: State, e: Event)
    requires OneTimer(s) && Next(s, e).Some?
    requires e.Set? ==> forall k | 0 <= k < |s.timers| :: s.timers[k].phase != Fired
    ensures OneTimer(Next(s, e).value)
  {
  }

  lemma {:induction false} PromptRun(s: State, es: seq<Event>)
    requires OneTimer(s) && Run(s, es).Some? && Prompt(s, es)
    ensures OneTimer(Run(s, es).value)
    decreases |es|
  {
    hide OneTimer, Next;
    if es != [] {
      PromptStep(s, es[0]);
      PromptRun(Next(s, es[0]).value, es[1..]);
    }
  }

  /** If callbacks never wait across a set, every override lasts until its own
      deadline. */
  lemma PromptOverridesLast(clock: Instant, base: Level, es: seq<Event>, level: Level, ttl: int)
    requires Run(Boot(clock, base), es).Some? && Prompt(Boot(clock, base), es)
    requires var s := Run(Boot(clock, base), es).value;
             forall k | 0 <= k < |s.timers| :: s.timers[k].phase != Fired
    requires 0 < ttl <= MAX_TTL && level != base
    ensures var s := Run(Boot(clock, base), es).value;
            Lasts(SetStep(s, level, ttl), level, s.clock + ttl)
  {
    var s := Run(Boot(clock, base), es).value;
    PromptRun(Boot(clock, base), es);
    RunKeeps(Boot(clock, base), es);
    hide Lasts, Run;
    OverrideLasts(s, level, ttl);
    assert NothingStale(s, ttl);
  }

  // ---- the handler ----------------------------------------------------------------

  /** Seconds until the announced revert, as the handler reports it */
  function RevertIn(s: State): int {
    if s.revertAt == 0 || s.revertAt < s.clock then 0 else (s.revertAt - s.clock) / SECOND
  }

  /** The report never promises more than an hour, nor a revert later than the
      deadline, and is zero once it has passed. */
  lemma RevertInBounds(clock: Instant, base: Level, es: seq<Event>)
    requires Run(Boot(clock, base), es).Some?
    ensures var s := Run(Boot(clock, base), es).value;
            && 0 <= RevertIn(s) <= 3600
            && (RevertIn(s) > 0 ==>
                  |s.timers| > 0 && s.clock + RevertIn(s) * SECOND <= s.timers[|s.timers| - 1].deadline)
            && (s.level != base && RevertIn(s) == 0 ==>
                  |s.timers| > 0 && s.timers[|s.timers| - 1].deadline < s.clock + SECOND)
  {
    RunKeeps(Boot(clock, base), es);
    var s := Run(Boot(clock, base), es).value;
    hide Run;
    if s.cancel.Some? {
      assert s.revertAt <= s.clock + MAX_TTL;
    }
  }

  class LevelAdmin {
    const base: Level
    var level: Level
    var cancel: Option<nat>
    var revertAt: int
    var timers: seq<Timer>   // the runtime's timers started by this handler

    ghost function At(clock: Instant): State
      reads this
    {
      State(clock, base, level, revertAt, cancel, timers)
    }

    constructor (level: Level, ghost clock: Instant)
      ensures At(clock) == Boot(clock, level)
    {
      base := level;
      this.level := level;
      cancel := None;
      revertAt := 0;
      timers := [];
    }

    /** `parsed` is the requested level, None when the body or the level text is
        not valid. An accepted request is one Set step; any other changes nothing. */
    method Put(parsed: Option<Level>, ttlS: Int64, now: Instant) returns (ok: bool)
      modifies this
      ensures ok <==> parsed.Some? && TtlAccepted(ttlS)
      ensures ok ==> Next(old(At(now)), Event.Set(parsed.value, TtlOf(ttlS))) == Some(At(now))
      ensures !ok ==> At(now) == old(At(now))
    {
      if parsed.None? {
        return false;
      }
      var ttl := DEFAULT_TTL;
      if ttlS != 0 {
        ttl := Wrap64(ttlS * SECOND);
      }
      if ttl <= 0 || ttl > MAX_TTL {
        return false;
      }
      if cancel.Some? {
        timers := Stop(timers, cancel.value);
      }
      level := parsed.value;
      revertAt := now + ttl;
      cancel := Some(|timers|);
      timers := timers + [Timer(now, now + ttl, Pending)];
      return true;
    }

    /** The callback of timer k, once it holds the mutex */
    method Revert(k: nat, ghost now: Instant)
      requires In(At(now), k, Fired)
      modifies this
      ensures Next(old(At(now)), Callback(k)) == Some(At(now))
    {
      level := base;
      cancel := None;
      revertAt := 0;
      timers := timers[k := timers[k].(phase := Done)];
    }

    method WriteState(now: Instant) returns (current: Level, baseLevel: Level, revertIn: int)
      ensures current == level && baseLevel == base && revertIn == RevertIn(At(now))
      ensures if revertAt != 0 && revertAt >= now then
                0 <= revertIn && revertIn * 1_000_000_000 <= revertAt - now < (revertIn + 1) * 1_000_000_000
              else revertIn == 0
    {
      revertIn := 0;
      if revertAt != 0 {
        revertIn := Truncate(revertAt - now);
        if revertIn < 0 {
          revertIn := 0;
        }
      }
      current, baseLevel := level, base;
    }
  }

  /** Whole seconds, toward zero */
  function Truncate(d: int): int {
    if d < 0 then -(-d / SECOND) else d / SECOND
  }
}
