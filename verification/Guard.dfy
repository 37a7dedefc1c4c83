/**
 The guard in front of every tool call: access mode, role, confirmation, rate
 limit and audit, and the dispatcher's use of it for one call.

 A tool, and what it answers when invoked, are parameters. Clock readings are
 parameters too, in nanoseconds after Go's zero time.
 */
module Guard {
  import opened Wrappers
  import opened Machine
  import opened Audit

  /** Read-only, mutating (1), disruptive and admin, in this order */
  type Risk = r: int | 0 <= r <= 3

  const READ_ONLY: Risk := 0
  const DISRUPTIVE: Risk := 2
  const ADMIN: Risk := 3

  /** Raw arguments, and the confirm member JSON decoding finds in them */
  datatype Args = Args(raw: string, confirm: bool)

  /** The optional interfaces a tool may implement are `None` when it does not. */
  datatype Tool = Tool(
    name: string,
    risk: Risk,
    riskFor: Option<Args -> Risk>,
    plan: Option<Args -> Result<string>>,
    inputHash: Args -> string)

  /** What the request context carries: the role is absent unless a transport set it. */
  datatype Caller = Caller(role: Option<string>, session: string, remoteAddr: string)

  datatype Call = Call(caller: Caller, tool: Tool, args: Args)

  function Ceiling(mode: string): Risk {
    if mode == "lab" then ADMIN else if mode == "operator" then DISRUPTIVE else READ_ONLY
  }

  function Max(role: string): Risk {
    if role == "admin" then ADMIN else if role == "operator" then DISRUPTIVE else READ_ONLY
  }

  function RoleFrom(c: Caller): string {
    if c.role.Some? && c.role.value != "" then c.role.value else "viewer"
  }

  function EffectiveRisk(c: Call): Risk {
    if c.tool.riskFor.Some? then c.tool.riskFor.value(c.args) else c.tool.risk
  }

  predicate NeedsConfirm(r: Risk) {
    r >= DISRUPTIVE
  }

  /** What access mode and role together allow */
  predicate Permitted(mode: string, c: Call) {
    EffectiveRisk(c) <= Min(Ceiling(mode), Max(RoleFrom(c.caller)))
  }

  /** The policy in names and numbers: anyone may read; operators and administrators
      may do anything up to a disruption (2) in the operator and lab modes; only an
      administrator in the lab may do more. */
  predicate Policy(mode: string, role: Option<string>, risk: int) {
    || risk == 0
    || (risk <= 2 && (mode == "operator" || mode == "lab") && (role == Some("operator") || role == Some("admin")))
    || (mode == "lab" && role == Some("admin"))
  }

  /** Mode, role and risk of a call decide as the policy says: a level that depends
      on the arguments is the one that counts, and an absent or empty role is the
      viewer's. */
  lemma PolicyTable(mode: string, c: Call)
    ensures EffectiveRisk(c) == if c.tool.riskFor.Some? then c.tool.riskFor.value(c.args) else c.tool.risk
    ensures Permitted(mode, c) <==> Policy(mode, c.caller.role, EffectiveRisk(c))
    ensures EffectiveRisk(c) <= Ceiling(mode) <==>
              EffectiveRisk(c) == 0 || mode == "lab" || (mode == "operator" && EffectiveRisk(c) <= 2)
    ensures NeedsConfirm(EffectiveRisk(c)) <==> EffectiveRisk(c) == 2 || EffectiveRisk(c) == 3
    ensures RoleFrom(c.caller)
         == if c.caller.role == None || c.caller.role == Some("") then "viewer" else c.caller.role.value
  {
  }

  /** A call that may reach the tool, the rate limit aside */
  predicate Admissible(mode: string, c: Call) {
    Permitted(mode, c) && (NeedsConfirm(EffectiveRisk(c)) ==> c.args.confirm)
  }

  predicate PlanFails(c: Call) {
    c.tool.plan.Some? && c.tool.plan.value(c.args).Err?
  }

  /** Too soon after the last confirmed call; zero stands for "none yet". */
  predicate Limited(lastConf: int, now: Instant, minInterval: int) {
    lastConf != 0 && now - lastConf < minInterval
  }

  datatype DryRun = DryRun(tool: string, risk: Risk, plan: Option<string>)

  datatype Reason = AboveMode | AboveRole | NoPlan | RateLimited(wait: int)

  datatype Decision = Refuse(reason: Reason) | Dry(result: DryRun) | Proceed

  datatype Response = Refusal(why: Reason) | Plan(dryRun: DryRun) | Answer(answer: Result<string>)

  function MakeEntry(c: Call, outcome: Outcome, at: int): Entry {
    Entry(at, c.tool.name, EffectiveRisk(c), RoleFrom(c.caller), c.caller.session, c.caller.remoteAddr,
          outcome, c.tool.inputHash(c.args))
  }

  /** The audit entries of a call that ended with this outcome */
  function Audited(c: Call, outcome: Outcome, at: int): seq<Entry> {
    if EffectiveRisk(c) > READ_ONLY then [MakeEntry(c, outcome, at)] else []
  }

  /** What the entry tells of the call: who, what, when and how it ended */
  predicate Records(e: Entry, c: Call, r: Response, stamp: Instant) {
    && e.time == stamp && e.tool == c.tool.name && e.inputHash == c.tool.inputHash(c.args)
    && e.risk == (if c.tool.riskFor.Some? then c.tool.riskFor.value(c.args) else c.tool.risk)
    && e.role == (if c.caller.role == None || c.caller.role == Some("") then "viewer" else c.caller.role.value)
    && e.session == c.caller.session && e.remoteAddr == c.caller.remoteAddr
    && (e.outcome == Executed <==> r.Answer? && r.answer.Ok?)
    && (e.outcome == Failed <==> r.Answer? && r.answer.Err?)
    && (e.outcome == DryRunReturned <==> r.Plan?)
    && (e.outcome == Outcome.Refused <==> r.Refusal?)
  }

  class Guard {
    const mode: string
    const minInterval: int
    const audit: Ring
    var lastConf: int

    ghost predicate Valid()
      reads this, audit, audit.buf
    {
      audit.Valid() && minInterval > 0 && lastConf >= 0
    }

    constructor (mode: string, minInterval: int, auditSize: int)
      ensures Valid() && fresh(audit) && fresh(audit.buf) && audit.log == [] && lastConf == 0
      ensures this.mode == if mode == "" then "read-only" else mode
      ensures this.minInterval == if minInterval <= 0 then 2_000_000_000 else minInterval
      ensures audit.buf.Length == if auditSize <= 0 then 256 else auditSize
    {
      this.mode := if mode == "" then "read-only" else mode;
      this.minInterval := if minInterval <= 0 then 2_000_000_000 else minInterval;
      audit := new Ring(if auditSize <= 0 then 256 else auditSize);
      lastConf := 0;
    }

    method Refused(c: Call, reason: Reason, stamp: Instant) returns (d: Decision)
      requires Valid()
      modifies audit, audit.buf
      ensures Valid() && d == Refuse(reason)
      ensures audit.log == old(audit.log) + Audited(c, Outcome.Refused, stamp)
    {
      if EffectiveRisk(c) > READ_ONLY {
        audit.Add(MakeEntry(c, Outcome.Refused, stamp));
      }
      d := Refuse(reason);
    }

    /** `now` is the reading taken under the lock, `stamp` the one in the entry. */
    method Check(c: Call, now: Instant, stamp: Instant) returns (d: Decision)
      requires Valid()
      modifies this, audit, audit.buf
      ensures Valid()
      ensures d.Proceed? <==>
                Admissible(mode, c) && !(NeedsConfirm(EffectiveRisk(c)) && Limited(old(lastConf), now, minInterval))
      ensures d.Dry? <==>
                Permitted(mode, c) && NeedsConfirm(EffectiveRisk(c)) && !c.args.confirm && !PlanFails(c)
      ensures d.Refuse? && d.reason.RateLimited? ==>
                0 < d.reason.wait && now + d.reason.wait == old(lastConf) + minInterval
      ensures d.Refuse? ==> (d.reason.RateLimited? <==> Admissible(mode, c))
      ensures d == Refuse(AboveMode) <==> EffectiveRisk(c) > Ceiling(mode)
      ensures d == Refuse(AboveRole) <==> Max(RoleFrom(c.caller)) < EffectiveRisk(c) <= Ceiling(mode)
      ensures var risk: int := if c.tool.riskFor.Some? then c.tool.riskFor.value(c.args) else c.tool.risk;
              && (d == Refuse(AboveMode) || d == Refuse(AboveRole) <==> !Policy(mode, c.caller.role, risk))
              && (d.Proceed? && risk >= 2 ==> c.args.confirm)
      ensures lastConf == if d.Proceed? && NeedsConfirm(EffectiveRisk(c)) then now else old(lastConf)
      ensures audit.log == old(audit.log) +
                           if d.Proceed? then []
                           else Audited(c, if d.Dry? then DryRunReturned else Outcome.Refused, stamp)
    {
      PolicyTable(mode, c);
      var risk := EffectiveRisk(c);
      var role := RoleFrom(c.caller);
      if risk > Ceiling(mode) {
        d := Refused(c, AboveMode, stamp);
        return;
      }
      if risk > Max(role) {
        d := Refused(c, AboveRole, stamp);
        return;
      }
      if !NeedsConfirm(risk) {
        return Proceed;
      }
      if !c.args.confirm {
        d := DryRunOf(c, stamp);
        return;
      }
      if lastConf != 0 && now - lastConf < minInterval {
        d := Refused(c, RateLimited(minInterval - (now - lastConf)), stamp);
        return;
      }
      lastConf := now;
      return Proceed;
    }

    /** The answer to an unconfirmed call; the level shown is the tool's static one. */
    method DryRunOf(c: Call, stamp: Instant) returns (d: Decision)
      requires Valid() && NeedsConfirm(EffectiveRisk(c))
      modifies audit, audit.buf
      ensures Valid()
      ensures d == if PlanFails(c) then Refuse(NoPlan)
                   else Dry(DryRun(c.tool.name, c.tool.risk,
                                   if c.tool.plan.Some? then Some(c.tool.plan.value(c.args).value) else None))
      ensures audit.log == old(audit.log) + Audited(c, if d.Dry? then DryRunReturned else Outcome.Refused, stamp)
    {
      var plan := None;
      if c.tool.plan.Some? {
        var p := c.tool.plan.value(c.args);
        if p.Err? {
          d := Refused(c, NoPlan, stamp);
          return;
        }
        plan := Some(p.value);
      }
      audit.Add(MakeEntry(c, DryRunReturned, stamp));
      d := Dry(DryRun(c.tool.name, c.tool.risk, plan));
    }

    method Record(c: Call, ok: bool, stamp: Instant)
      requires Valid()
      modifies audit, audit.buf
      ensures Valid()
      ensures audit.log == old(audit.log) + Audited(c, if ok then Executed else Failed, stamp)
    {
      if EffectiveRisk(c) == READ_ONLY {
        return;
      }
      audit.Add(MakeEntry(c, if ok then Executed else Failed, stamp));
    }

    /** The dispatcher's handling of one call: the tool answers `answer` if it is
        invoked. A call above read-only leaves exactly one entry, whose outcome
        tells which response was given; a read-only call leaves none. */
    method CallTool(c: Call, answer: Result<string>, now: Instant, stamp: Instant) returns (r: Response)
      requires Valid()
      modifies this, audit, audit.buf
      ensures Valid()
      ensures r.Answer? ==> r.answer == answer
      ensures r.Answer? <==>
                Admissible(mode, c) && !(NeedsConfirm(EffectiveRisk(c)) && Limited(old(lastConf), now, minInterval))
      ensures EffectiveRisk(c) == READ_ONLY ==> r.Answer? && audit.log == old(audit.log)
      ensures EffectiveRisk(c) > READ_ONLY ==>
                audit.log == old(audit.log) + [MakeEntry(c, OutcomeOf(r), stamp)]
      ensures EffectiveRisk(c) > READ_ONLY ==> audit.log != [] && Records(audit.log[|audit.log| - 1], c, r, stamp)
      ensures lastConf == if r.Answer? && NeedsConfirm(EffectiveRisk(c)) then now else old(lastConf)
    {
      var d := Check(c, now, stamp);
      match d
      case Refuse(reason) =>
        r := Refusal(reason);
      case Dry(result) =>
        r := Plan(result);
      case Proceed =>
        Record(c, answer.Ok?, stamp);
        r := Answer(answer);
    }
  }

  function OutcomeOf(r: Response): Outcome {
    match r
    case Refusal(_) => Outcome.Refused
    case Plan(_) => DryRunReturned
    case Answer(Ok(_)) => Executed
    case Answer(Err) => Failed
  }
}
