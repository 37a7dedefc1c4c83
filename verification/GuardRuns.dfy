/**
 Concurrent calls through one guard, interleaved at the granularity of its
 locks: a call decides outside any lock, passes the rate limit in one critical
 section of the guard's mutex, and appends its audit entry in one critical
 section of the ring's.
 */
module GuardRuns {
  import opened Wrappers
  import opened Machine
  import opened Audit
  import opened Guard

  datatype Phase =
    | Deciding             // Check has not looked at the call yet
    | Limiting             // waiting for the guard's mutex
    | Running              // the tool is being invoked
    | Adding(out: Outcome) // waiting to append the audit entry
    | Finished(was: Outcome)

  /** `grantedAt`: the clock reading at which the call was let through to the tool */
  datatype Thread = Thread(call: Call, phase: Phase, grantedAt: Option<Instant>)

  /** `log` holds the calling thread with each entry. */
  datatype State = State(clock: Instant, lastConf: int, threads: seq<Thread>, log: seq<(nat, Outcome)>)

  datatype Config = Config(mode: string, minInterval: int)

  datatype Event =
    | Advance(to: Instant)
    | Arrive(call: Call)
    | Decide(id: nat)
    | Limit(id: nat)
    | Return(id: nat, ok: bool)
    | Append(id: nat)

  const BOOT: State := State(1, 0, [], [])

  function Goto(s: State, i: nat, p: Phase): State
    requires i < |s.threads|
  {
    s.(threads := s.threads[i := s.threads[i].(phase := p)])
  }

  function Grant(s: State, i: nat): State
    requires i < |s.threads|
  {
    s.(threads := s.threads[i := s.threads[i].(phase := Running, grantedAt := Some(s.clock))])
  }

  /** The unlocked part of Check */
  function DecideStep(g: Config, s: State, i: nat): State
    requires i < |s.threads|
  {
    var c := s.threads[i].call;
    var risk := EffectiveRisk(c);
    if risk > Ceiling(g.mode) || risk > Max(RoleFrom(c.caller)) then Goto(s, i, Adding(Outcome.Refused))
    else if !NeedsConfirm(risk) then Grant(s, i)
    else if !c.args.confirm then Goto(s, i, Adding(if PlanFails(c) then Outcome.Refused else DryRunReturned))
    else Goto(s, i, Limiting)
  }

  function LimitStep(g: Config, s: State, i: nat): State
    requires i < |s.threads|
  {
    if Limited(s.lastConf, s.clock, g.minInterval) then Goto(s, i, Adding(Outcome.Refused))
    else Grant(s, i).(lastConf := s.clock)
  }

  function AppendStep(s: State, i: nat): State
    requires i < |s.threads| && s.threads[i].phase.Adding?
  {
    var o := s.threads[i].phase.out;
    Goto(s, i, Finished(o)).(log := s.log + if EffectiveRisk(s.threads[i].call) > READ_ONLY then [(i, o)] else [])
  }

  predicate At(s: State, i: nat, p: Phase) {
    i < |s.threads| && s.threads[i].phase == p
  }

  /** The successor state, or None when the event cannot happen here */
  function Next(g: Config, s: State, e: Event): Option<State> {
    match e
    case Advance(to) => if s.clock <= to then Some(s.(clock := to)) else None
    case Arrive(c) => Some(s.(threads := s.threads + [Thread(c, Deciding, None)]))
    case Decide(i) => if At(s, i, Deciding) then Some(DecideStep(g, s, i)) else None
    case Limit(i) => if At(s, i, Limiting) then Some(LimitStep(g, s, i)) else None
    case Return(i, ok) => if At(s, i, Running) then Some(Goto(s, i, Adding(if ok then Executed else Failed))) else None
    case Append(i) => if i < |s.threads| && s.threads[i].phase.Adding? then Some(AppendStep(s, i)) else None
  }

  function Run(g: Config, s: State, es: seq<Event>): Option<State>
    decreases |es|
  {
    if es == [] then Some(s)
    else
      var next := Next(g, s, es[0]);
      if next.None? then None else Run(g, next.value, es[1..])
  }

  /** A call that decides and takes the lock without interruption ends where
      Guard.Check's contract says: the same verdict, the same lastConf. */
  lemma AloneLikeCheck(g: Config, s: State, i: nat)
    requires At(s, i, Deciding)
    ensures var c := s.threads[i].call;
            var d := DecideStep(g, s, i);
            var r := if d.threads[i].phase.Limiting? then LimitStep(g, d, i) else d;
            && (ReachesTool(r.threads[i].phase) <==>
                  && Admissible(g.mode, c)
                  && !(NeedsConfirm(EffectiveRisk(c)) && Limited(s.lastConf, s.clock, g.minInterval)))
            && (r.threads[i].phase == Adding(DryRunReturned) <==>
                  Permitted(g.mode, c) && NeedsConfirm(EffectiveRisk(c)) && !c.args.confirm && !PlanFails(c))
            && (r.threads[i].phase.Running? || r.threads[i].phase.Adding?)
            && r.lastConf
               == (if r.threads[i].phase.Running? && NeedsConfirm(EffectiveRisk(c)) then s.clock else s.lastConf)
  {
    hide EffectiveRisk, Ceiling, Max, RoleFrom, PlanFails;
  }

  // ---- what every run keeps -------------------------------------------------

  predicate Confirmed(t: Thread) {
    t.grantedAt.Some? && NeedsConfirm(EffectiveRisk(t.call))
  }

  /** The tool is reached exactly by the calls that were let through. */
  predicate ReachesTool(p: Phase) {
    || p.Running?
    || (p.Adding? && (p.out.Executed? || p.out.Failed?))
    || (p.Finished? && (p.was.Executed? || p.was.Failed?))
  }

  predicate ThreadOk(g: Config, t: Thread) {
    && (t.grantedAt.Some? <==> ReachesTool(t.phase))
    && (t.grantedAt.Some? ==> Admissible(g.mode, t.call))
    && (t.phase.Limiting? ==> Admissible(g.mode, t.call) && NeedsConfirm(EffectiveRisk(t.call)))
  }

  ghost predicate CallsOk(g: Config, s: State) {
    forall i | 0 <= i < |s.threads| :: ThreadOk(g, s.threads[i])
  }

  predicate Apart(a: Thread, b: Thread, minInterval: int)
    requires a.grantedAt.Some? && b.grantedAt.Some?
  {
    a.grantedAt.value + minInterval <= b.grantedAt.value || b.grantedAt.value + minInterval <= a.grantedAt.value
  }

  /** Any two confirmed calls that went through are minInterval apart; lastConf
      is the reading of the latest of them. */
  ghost predicate Spaced(g: Config, s: State) {
    && 0 <= s.lastConf <= s.clock
    && (forall i | 0 <= i < |s.threads| && Confirmed(s.threads[i]) :: s.threads[i].grantedAt.value <= s.lastConf)
    && (forall i, j | 0 <= i < j < |s.threads| && Confirmed(s.threads[i]) && Confirmed(s.threads[j]) ::
          Apart(s.threads[i], s.threads[j], g.minInterval))
    && (s.lastConf != 0 ==>
          exists i :: 0 <= i < |s.threads| && Confirmed(s.threads[i]) && s.threads[i].grantedAt.value == s.lastConf)
  }

  /** Entries of call i */
  function Count(log: seq<(nat, Outcome)>, i: nat): nat {
    if log == [] then 0
    else Count(log[..|log| - 1], i) + if log[|log| - 1].0 == i then 1 else 0
  }

  /** How many entries call i should have by now */
  function Expected(s: State, i: nat): nat {
    if i < |s.threads| && s.threads[i].phase.Finished? && EffectiveRisk(s.threads[i].call) > READ_ONLY then 1 else 0
  }

  ghost predicate LogOk(s: State) {
    && (forall i: nat :: Count(s.log, i) == Expected(s, i))
    && (forall k | 0 <= k < |s.log| ::
          s.log[k].0 < |s.threads| && s.threads[s.log[k].0].phase == Finished(s.log[k].1))
  }

  ghost predicate Inv(g: Config, s: State) {
    CallsOk(g, s) && Spaced(g, s) && LogOk(s)
  }

  lemma CountSnoc(log: seq<(nat, Outcome)>, e: (nat, Outcome), i: nat)
    ensures Count(log + [e], i) == Count(log, i) + if e.0 == i then 1 else 0
  {
    assert (log + [e])[..|log|] == log;
  }

  /** A thread changes phase: its grant is untouched. */
  lemma GotoKeeps(g: Config, s: State, i: nat, p: Phase)
    requires Inv(g, s) && i < |s.threads| && ThreadOk(g, s.threads[i].(phase := p))
    requires !s.threads[i].phase.Finished? && !p.Finished?
    ensures Inv(g, Goto(s, i, p))
  {
    hide EffectiveRisk, Admissible, ReachesTool;
    var s' := Goto(s, i, p);
    SameGrants(g, s, s');
    forall j: nat ensures Count(s'.log, j) == Expected(s', j) {
      assert Count(s.log, j) == Expected(s, j);
    }
  }

  /** Spacing depends only on who was let through, and when. */
  lemma SameGrants(g: Config, s: State, s': State)
    requires Spaced(g, s)
    requires |s.threads| <= |s'.threads| && s'.clock >= s.clock && s'.lastConf == s.lastConf
    requires forall i | 0 <= i < |s.threads| ::
               s'.threads[i].grantedAt == s.threads[i].grantedAt && s'.threads[i].call == s.threads[i].call
    requires forall i | |s.threads| <= i < |s'.threads| :: !Confirmed(s'.threads[i])
    ensures Spaced(g, s')
  {
    hide NeedsConfirm, EffectiveRisk;
    if s.lastConf != 0 {
      var i :| 0 <= i < |s.threads| && Confirmed(s.threads[i]) && s.threads[i].grantedAt.value == s.lastConf;
      assert Confirmed(s'.threads[i]);
    }
    forall i, j | 0 <= i < j < |s'.threads| && Confirmed(s'.threads[i]) && Confirmed(s'.threads[j])
      ensures Apart(s'.threads[i], s'.threads[j], g.minInterval)
    {
      assert Confirmed(s.threads[i]) && Confirmed(s.threads[j]);
    }
    forall i | 0 <= i < |s'.threads| && Confirmed(s'.threads[i])
      ensures s'.threads[i].grantedAt.value <= s'.lastConf
    {
      assert Confirmed(s.threads[i]);
    }
  }

  /** A call that needs no confirmation is let through. */
  lemma GrantKeeps(g: Config, s: State, i: nat)
    requires Inv(g, s) && At(s, i, Deciding)
    requires Admissible(g.mode, s.threads[i].call) && !NeedsConfirm(EffectiveRisk(s.threads[i].call))
    ensures Inv(g, Grant(s, i))
  {
    hide EffectiveRisk, Admissible, NeedsConfirm;
    var s' := Grant(s, i);
    assert Spaced(g, s') by { UnconfirmedGrant(g, s, i); }
    forall j: nat ensures Count(s'.log, j) == Expected(s', j) {
      assert Count(s.log, j) == Expected(s, j);
    }
  }

  lemma UnconfirmedGrant(g: Config, s: State, i: nat)
    requires Spaced(g, s) && i < |s.threads| && !NeedsConfirm(EffectiveRisk(s.threads[i].call))
    ensures Spaced(g, Grant(s, i))
  {
    hide NeedsConfirm, EffectiveRisk;
    var s' := Grant(s, i);
    if s.lastConf != 0 {
      var k :| 0 <= k < |s.threads| && Confirmed(s.threads[k]) && s.threads[k].grantedAt.value == s.lastConf;
      assert Confirmed(s'.threads[k]);
    }
    forall k, j | 0 <= k < j < |s'.threads| && Confirmed(s'.threads[k]) && Confirmed(s'.threads[j])
      ensures Apart(s'.threads[k], s'.threads[j], g.minInterval)
    {
      assert Confirmed(s.threads[k]) && Confirmed(s.threads[j]);
    }
  }

  /** The critical section: the call goes through at the current reading only if
      every confirmed call before it is minInterval away. */
  lemma LimitKeeps(g: Config, s: State, i: nat)
    requires Inv(g, s) && At(s, i, Limiting)
    ensures Inv(g, LimitStep(g, s, i))
  {
    hide EffectiveRisk, Admissible, NeedsConfirm;
    if Limited(s.lastConf, s.clock, g.minInterval) {
      GotoKeeps(g, s, i, Adding(Outcome.Refused));
    } else {
      var s' := LimitStep(g, s, i);
      assert Spaced(g, s') by { ConfirmedGrant(g, s, i); }
      forall j: nat ensures Count(s'.log, j) == Expected(s', j) {
        assert Count(s.log, j) == Expected(s, j);
      }
    }
  }

  lemma ConfirmedGrant(g: Config, s: State, i: nat)
    requires Spaced(g, s) && i < |s.threads| && s.threads[i].grantedAt.None?
    requires NeedsConfirm(EffectiveRisk(s.threads[i].call))
    requires !Limited(s.lastConf, s.clock, g.minInterval)
    ensures Spaced(g, Grant(s, i).(lastConf := s.clock))
  {
    hide NeedsConfirm, EffectiveRisk;
    var s' := Grant(s, i).(lastConf := s.clock);
    assert Confirmed(s'.threads[i]) && s'.threads[i].grantedAt.value == s'.lastConf;
    forall k, j | 0 <= k < j < |s'.threads| && Confirmed(s'.threads[k]) && Confirmed(s'.threads[j])
      ensures Apart(s'.threads[k], s'.threads[j], g.minInterval)
    {
      if k != i { assert Confirmed(s.threads[k]); }
      if j != i { assert Confirmed(s.threads[j]); }
    }
  }

  lemma AppendKeeps(g: Config, s: State, i: nat)
    requires Inv(g, s) && i < |s.threads| && s.threads[i].phase.Adding?
    ensures Inv(g, AppendStep(s, i))
  {
    hide EffectiveRisk, Admissible, NeedsConfirm, Count;
    var s' := AppendStep(s, i);
    SameGrants(g, s, s');
    var o := s.threads[i].phase.out;
    assert CallsOk(g, s');
    forall j: nat ensures Count(s'.log, j) == Expected(s', j) {
      assert Count(s.log, j) == Expected(s, j);
      CountSnoc(s.log, (i, o), j);
      assert s.log + [] == s.log;
    }
  }

  lemma DecideKeeps(g: Config, s: State, i: nat)
    requires Inv(g, s) && At(s, i, Deciding)
    ensures Inv(g, DecideStep(g, s, i))
  {
    hide Inv, EffectiveRisk, Max, Ceiling, RoleFrom;
    var c := s.threads[i].call;
    var risk := EffectiveRisk(c);
    if risk > Ceiling(g.mode) || risk > Max(RoleFrom(c.caller)) {
      Ungranted(g, s, i);
      GotoKeeps(g, s, i, Adding(Outcome.Refused));
    } else if !NeedsConfirm(risk) {
      GrantKeeps(g, s, i);
    } else if !c.args.confirm {
      Ungranted(g, s, i);
      GotoKeeps(g, s, i, Adding(if PlanFails(c) then Outcome.Refused else DryRunReturned));
    } else {
      Ungranted(g, s, i);
      GotoKeeps(g, s, i, Limiting);
    }
  }

  lemma Ungranted(g: Config, s: State, i: nat)
    requires Inv(g, s) && At(s, i, Deciding)
    ensures s.threads[i].grantedAt.None?
  {
    assert ThreadOk(g, s.threads[i]);
  }

  lemma StepKeeps(g: Config, s: State, e: Event)
    requires Inv(g, s) && Next(g, s, e).Some?
    ensures Inv(g, Next(g, s, e).value)
  {
    hide DecideStep, LimitStep, AppendStep;
    match e
    case Advance(to) =>
      AdvanceKeeps(g, s, to);
    case Arrive(c) =>
      ArriveKeeps(g, s, c);
    case Decide(i) =>
      DecideKeeps(g, s, i);
    case Limit(i) =>
      LimitKeeps(g, s, i);
    case Return(i, ok) =>
      assert ThreadOk(g, s.threads[i]);
      GotoKeeps(g, s, i, Adding(if ok then Executed else Failed));
    case Append(i) =>
      AppendKeeps(g, s, i);
  }

  lemma AdvanceKeeps(g: Config, s: State, to: Instant)
    requires Inv(g, s) && s.clock <= to
    ensures Inv(g, s.(clock := to))
  {
    var s' := s.(clock := to);
    SameGrants(g, s, s');
    forall j: nat ensures Count(s'.log, j) == Expected(s', j) {
      assert Count(s.log, j) == Expected(s, j);
    }
  }

  lemma ArriveKeeps(g: Config, s: State, c: Call)
    requires Inv(g, s)
    ensures Inv(g, s.(threads := s.threads + [Thread(c, Deciding, None)]))
  {
    hide EffectiveRisk, Admissible, NeedsConfirm;
    var s' := s.(threads := s.threads + [Thread(c, Deciding, None)]);
    SameGrants(g, s, s');
    forall j: nat ensures Count(s'.log, j) == Expected(s', j) {
      assert Count(s.log, j) == Expected(s, j);
    }
  }

  lemma {:induction false} RunKeeps(g: Config, s: State, es: seq<Event>)
    requires Inv(g, s) && Run(g, s, es).Some?
    ensures Inv(g, Run(g, s, es).value)
    decreases |es|
  {
    hide Inv, Next;
    if es != [] {
      StepKeeps(g, s, es[0]);
      RunKeeps(g, Next(g, s, es[0]).value, es[1..]);
    }
  }

  lemma BootOk(g: Config)
    ensures Inv(g, BOOT)
  {
  }

  /** In every interleaving, only admissible calls reach their tool: none above
      the access mode or the role, none unconfirmed that needs confirmation. */
  lemma OnlyAdmissibleCallsRun(g: Config, es: seq<Event>, i: nat)
    requires Run(g, BOOT, es).Some? && i < |Run(g, BOOT, es).value.threads|
    ensures var t := Run(g, BOOT, es).value.threads[i];
            ReachesTool(t.phase) ==>
              && EffectiveRisk(t.call) <= Ceiling(g.mode)
              && EffectiveRisk(t.call) <= Max(RoleFrom(t.call.caller))
              && (EffectiveRisk(t.call) >= DISRUPTIVE ==> t.call.args.confirm)
    ensures var t := Run(g, BOOT, es).value.threads[i];
            var tool := t.call.tool;
            var risk: int := if tool.riskFor.Some? then tool.riskFor.value(t.call.args) else tool.risk;
            ReachesTool(t.phase) ==> Policy(g.mode, t.call.caller.role, risk) && (risk >= 2 ==> t.call.args.confirm)
  {
    BootOk(g);
    PolicyTable(g.mode, Run(g, BOOT, es).value.threads[i].call);
    RunKeeps(g, BOOT, es);
    assert ThreadOk(g, Run(g, BOOT, es).value.threads[i]);
  }

  /** In every interleaving, two confirmed calls that went through did so at
      least minInterval apart, whatever the scheduling of the rest. */
  lemma ConfirmedCallsAreSpaced(g: Config, es: seq<Event>, i: nat, j: nat)
    requires Run(g, BOOT, es).Some?
    requires i < |Run(g, BOOT, es).value.threads| && j < |Run(g, BOOT, es).value.threads| && i != j
    requires Confirmed(Run(g, BOOT, es).value.threads[i]) && Confirmed(Run(g, BOOT, es).value.threads[j])
    ensures Apart(Run(g, BOOT, es).value.threads[i], Run(g, BOOT, es).value.threads[j], g.minInterval)
  {
    BootOk(g);
    RunKeeps(g, BOOT, es);
    var s := Run(g, BOOT, es).value;
    assert Spaced(g, s);
    if i < j {
      assert Apart(s.threads[i], s.threads[j], g.minInterval);
    } else {
      assert Apart(s.threads[j], s.threads[i], g.minInterval);
    }
  }

  /** The limit refuses only for cause: a call turned away by it finds another
      confirmed call let through less than minInterval ago. */
  lemma LimitedOnlyAfterARecentCall(g: Config, es: seq<Event>, i: nat)
    requires Run(g, BOOT, es).Some? && At(Run(g, BOOT, es).value, i, Limiting)
    ensures var s := Run(g, BOOT, es).value;
            !ReachesTool(LimitStep(g, s, i).threads[i].phase) <==>
              exists j :: 0 <= j < |s.threads| && Confirmed(s.threads[j])
                          && s.clock - s.threads[j].grantedAt.value < g.minInterval
  {
    BootOk(g);
    RunKeeps(g, BOOT, es);
    var s := Run(g, BOOT, es).value;
    assert Spaced(g, s);
    hide Run, EffectiveRisk, Inv, NeedsConfirm;
    if j :| 0 <= j < |s.threads| && Confirmed(s.threads[j]) && s.clock - s.threads[j].grantedAt.value < g.minInterval {
      assert s.threads[j].grantedAt.value <= s.lastConf;
    }
  }

  /** In every interleaving, a finished call above read-only has exactly one
      audit entry, an unfinished or read-only one has none, and each entry tells
      how its call ended. */
  lemma OneEntryPerCall(g: Config, es: seq<Event>)
    requires Run(g, BOOT, es).Some?
    ensures var s := Run(g, BOOT, es).value;
            && (forall i: nat | i < |s.threads| ::
                  Count(s.log, i) == if s.threads[i].phase.Finished? && EffectiveRisk(s.threads[i].call) > READ_ONLY
                                     then 1 else 0)
            && (forall k | 0 <= k < |s.log| ::
                  s.log[k].0 < |s.threads| && s.threads[s.log[k].0].phase == Finished(s.log[k].1))
  {
    BootOk(g);
    RunKeeps(g, BOOT, es);
    var s := Run(g, BOOT, es).value;
    assert LogOk(s);
    forall i: nat | i < |s.threads|
      ensures Count(s.log, i) == if s.threads[i].phase.Finished? && EffectiveRisk(s.threads[i].call) > READ_ONLY
                                 then 1 else 0
    {
      assert Count(s.log, i) == Expected(s, i);
    }
  }
}
