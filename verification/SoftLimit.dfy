/**
 How far an account can overspend. Admission reads the windows, decides at a
 later clock reading, writes what the decision opens in a further step, and cost
 arrives later still, in as many pieces as the request made attempts. This is
 that protocol as a state machine over one account with a fixed valid set, with
 administrators and other requests acting between any two steps.

 A reading is marked with whether the request it is for will be admitted. The mark
 restricts nothing a request may do: it says which readings a bound has to count,
 and every run can be marked by looking ahead.
 */
module SoftLimit {
  import opened Limits
  import opened SpendWindows

  /**
   At most k requests at once between the reading that admits them and their last charge,
   each costing at most cost in all.
   */
  datatype Config = Config(rules: RuleSet, k: nat, cost: real)

  ghost predicate ValidConfig(cfg: Config) {
    WellFormed(cfg.rules) && cfg.cost >= 0.0
  }

  datatype Phase =
    | Read(snapshot: Windows, admits: bool) // the rows are read, nothing is decided
    | Opening(decision: Decision, at: int)  // admitted; the windows due are not written yet
    | Spending(left: real)                  // admitted; at most left is still to be charged
    | Done                                  // refused, failed, or charged in full

  datatype State = State(now: int, rows: Windows, requests: seq<Phase>)

  /** Admitted, or about to be, and not charged in full. */
  predicate Counts(p: Phase) {
    match p
    case Read(_, admits) => admits
    case Done => false
    case _ => true
  }

  function Active(requests: seq<Phase>): nat {
    if requests == [] then 0 else Active(requests[1..]) + (if Counts(requests[0]) then 1 else 0)
  }

  datatype Event =
    | Tick(to: int)
    | ReadRows(admits: bool)
    | DecideNow(i: nat, d: Decision)
    | WriteOpen(i: nat)
    | FailOpen(i: nat, written: bool)
    | Charge(i: nat, amount: real, last: bool)
    | Abandon(i: nat)
    | Delete(lengths: set<int>)

  ghost predicate Init(s: State) {
    s.rows == map[] && s.requests == []
  }

  ghost predicate Step(cfg: Config, s: State, e: Event, t: State) {
    match e
    case Tick(to) =>
      s.now <= to && t == s.(now := to)
    case ReadRows(admits) =>
      (admits ==> Active(s.requests) < cfg.k) && t == s.(requests := s.requests + [Read(s.rows, admits)])
    case DecideNow(i, d) =>
      && i < |s.requests| && s.requests[i].Read?
      && IsDecision(cfg.rules, s.requests[i].snapshot, s.now, d)
      && (d.Admitted? ==> s.requests[i].admits)
      && t == s.(requests := s.requests[i := AfterDecision(cfg, d, s.now)])
    case WriteOpen(i) =>
      && i < |s.requests| && s.requests[i].Opening? && s.requests[i].decision.Admitted?
      && t == s.(rows := Applied(s.rows, s.requests[i].decision, s.requests[i].at),
                 requests := s.requests[i := Spending(cfg.cost)])
    case FailOpen(i, written) =>
      && i < |s.requests| && s.requests[i].Opening? && s.requests[i].decision.Admitted?
      && t == s.(rows := if written then Applied(s.rows, s.requests[i].decision, s.requests[i].at) else s.rows,
                 requests := s.requests[i := Done])
    case Charge(i, amount, last) =>
      && i < |s.requests| && s.requests[i].Spending? && 0.0 <= amount <= s.requests[i].left
      && t == s.(rows := Charged(s.rows, amount),
                 requests := s.requests[i := if last then Done else Spending(s.requests[i].left - amount)])
    case Abandon(i) =>
      i < |s.requests| && t == s.(requests := s.requests[i := Done])
    case Delete(lengths) =>
      t == s.(rows := Removed(s.rows, lengths))
  }

  /** A refused request is done; one with nothing to write goes on; the others write first. */
  function AfterDecision(cfg: Config, d: Decision, now: int): Phase {
    if d.Blocked? then Done
    else if d.open == [] && d.orphans == [] then Spending(cfg.cost)
    else Opening(d, now)
  }

  ghost predicate Next(cfg: Config, s: State, t: State) {
    exists e :: Step(cfg, s, e, t)
  }

  ghost predicate Run(cfg: Config, states: seq<State>) {
    && |states| > 0
    && Init(states[0])
    && forall i | 0 <= i < |states| - 1 :: Next(cfg, states[i], states[i + 1])
  }

  /** Every live window of a rule has spent less than the rule's amount and the cost of k requests. */
  ghost predicate WithinBound(cfg: Config, s: State) {
    forall i | 0 <= i < |cfg.rules| ::
      var l := cfg.rules[i].window;
      l in s.rows && s.rows[l].LiveAt(s.now) ==>
        s.rows[l].spentUSD < cfg.rules[i].amountUSD + cfg.k as real * cfg.cost
  }

  /** The soft limit's overdraft bound, in every state of every run. */
  lemma SoftLimitBound(cfg: Config, states: seq<State>, n: nat)
    requires ValidConfig(cfg) && Run(cfg, states) && n < |states|
    ensures WithinBound(cfg, states[n])
  {
    RunKeepsInvariant(cfg, states, n);
    InvariantBounds(cfg, states[n]);
  }

  lemma InvariantBounds(cfg: Config, s: State)
    requires ValidConfig(cfg) && Inv(cfg, s)
    ensures WithinBound(cfg, s)
  {
    CostOfIsProduct(cfg, cfg.k);
    forall i | 0 <= i < |cfg.rules| && cfg.rules[i].window in s.rows && s.rows[cfg.rules[i].window].LiveAt(s.now)
      ensures s.rows[cfg.rules[i].window].spentUSD < cfg.rules[i].amountUSD + cfg.k as real * cfg.cost
    {
      var rule := cfg.rules[i];
      assert Bounded(cfg, s, rule);
      PotentialIsNonNegative(cfg, s.requests, rule, s.rows[rule.window].EndsAt());
      CostOfGrows(cfg, 0, cfg.k);
      assert GoodRule(cfg.rules, i);
    }
  }

  // ---- The invariant ----

  /**
   A request that read the window exhausted, and not ending before the row now
   stored, is refused if it decides while that row is live.
   */
  predicate Doomed(p: Phase, rule: Rule, endsAt: int) {
    && p.Read?
    && rule.window in p.snapshot
    && p.snapshot[rule.window].spentUSD >= rule.amountUSD
    && p.snapshot[rule.window].EndsAt() >= endsAt
  }

  /** The most a request can still add to the rule's window while the stored row is live. */
  function Share(cfg: Config, p: Phase, rule: Rule, endsAt: int): real {
    match p
    case Done => 0.0
    case Spending(left) => left
    case Opening(_, _) => cfg.cost
    case Read(_, admits) => if !admits || Doomed(p, rule, endsAt) then 0.0 else cfg.cost
  }

  function Potential(cfg: Config, requests: seq<Phase>, rule: Rule, endsAt: int): real {
    if requests == [] then 0.0
    else Potential(cfg, requests[1..], rule, endsAt) + Share(cfg, requests[0], rule, endsAt)
  }

  ghost predicate Bounded(cfg: Config, s: State, rule: Rule)
    requires rule.window in s.rows
  {
    var w := s.rows[rule.window];
    w.LiveAt(s.now) && w.spentUSD >= rule.amountUSD ==>
      w.spentUSD + Potential(cfg, s.requests, rule, w.EndsAt()) < rule.amountUSD + CostOf(cfg, cfg.k)
  }

  ghost predicate Inv(cfg: Config, s: State) {
    && Keyed(s.rows)
    && Active(s.requests) <= cfg.k
    && (forall i | 0 <= i < |s.requests| :: WellFormedPhase(cfg, s.requests[i]))
    && (forall i | 0 <= i < |cfg.rules| && cfg.rules[i].window in s.rows :: Bounded(cfg, s, cfg.rules[i]))
  }

  ghost predicate WellFormedPhase(cfg: Config, p: Phase) {
    match p
    case Spending(left) => 0.0 <= left <= cfg.cost
    case Read(snapshot, _) => Keyed(snapshot)
    case _ => true
  }

  // ---- Sums over requests ----

  lemma {:induction false} PotentialIsNonNegative(cfg: Config, requests: seq<Phase>, rule: Rule, endsAt: int)
    requires cfg.cost >= 0.0
    requires forall i | 0 <= i < |requests| :: WellFormedPhase(cfg, requests[i])
    ensures 0.0 <= Potential(cfg, requests, rule, endsAt)
  {
    if requests != [] {
      assert WellFormedPhase(cfg, requests[0]);
      PotentialIsNonNegative(cfg, requests[1..], rule, endsAt);
    }
  }

  lemma {:induction false} PotentialWithinCost(cfg: Config, requests: seq<Phase>, rule: Rule, endsAt: int)
    requires cfg.cost >= 0.0
    requires forall i | 0 <= i < |requests| :: WellFormedPhase(cfg, requests[i])
    ensures Potential(cfg, requests, rule, endsAt) <= CostOf(cfg, Active(requests))
  {
    if requests != [] {
      assert WellFormedPhase(cfg, requests[0]);
      PotentialWithinCost(cfg, requests[1..], rule, endsAt);
    }
  }

  /** The cost of n requests. */
  function CostOf(cfg: Config, n: nat): real {
    if n == 0 then 0.0 else CostOf(cfg, n - 1) + cfg.cost
  }

  lemma {:induction false} CostOfIsProduct(cfg: Config, n: nat)
    ensures CostOf(cfg, n) == n as real * cfg.cost
  {
    if n > 0 {
      CostOfIsProduct(cfg, n - 1);
      assert n as real * cfg.cost == (n - 1) as real * cfg.cost + cfg.cost;
    }
  }

  lemma {:induction false} CostOfGrows(cfg: Config, a: nat, b: nat)
    requires a <= b && cfg.cost >= 0.0
    ensures CostOf(cfg, a) <= CostOf(cfg, b)
  {
    if a < b { CostOfGrows(cfg, a, b - 1); }
  }

  lemma {:induction false} PotentialUpdate(cfg: Config, requests: seq<Phase>, i: nat, p: Phase, rule: Rule, endsAt: int)
    requires i < |requests|
    ensures Potential(cfg, requests[i := p], rule, endsAt)
         == Potential(cfg, requests, rule, endsAt) - Share(cfg, requests[i], rule, endsAt) + Share(cfg, p, rule, endsAt)
  {
    var after := requests[i := p];
    if i == 0 {
      assert after[1..] == requests[1..];
    } else {
      assert after[1..] == requests[1..][i - 1 := p];
      PotentialUpdate(cfg, requests[1..], i - 1, p, rule, endsAt);
    }
  }

  lemma {:induction false} ActiveUpdate(requests: seq<Phase>, i: nat, p: Phase)
    requires i < |requests|
    ensures Active(requests[i := p])
         == Active(requests) - (if Counts(requests[i]) then 1 else 0) + (if Counts(p) then 1 else 0)
  {
    var after := requests[i := p];
    if i == 0 {
      assert after[1..] == requests[1..];
    } else {
      assert after[1..] == requests[1..][i - 1 := p];
      ActiveUpdate(requests[1..], i - 1, p);
    }
  }

  lemma {:induction false} Appended(cfg: Config, requests: seq<Phase>, p: Phase, rule: Rule, endsAt: int)
    ensures Potential(cfg, requests + [p], rule, endsAt)
         == Potential(cfg, requests, rule, endsAt) + Share(cfg, p, rule, endsAt)
    ensures Active(requests + [p]) == Active(requests) + (if Counts(p) then 1 else 0)
  {
    if requests != [] {
      assert (requests + [p])[1..] == requests[1..] + [p];
      Appended(cfg, requests[1..], p, rule, endsAt);
    }
  }

  // ---- Every step keeps the invariant ----

  /** Changing one request to p keeps the bound when p can add no more than that request could. */
  lemma RequestStep(cfg: Config, s: State, i: nat, p: Phase)
    requires ValidConfig(cfg) && Inv(cfg, s) && i < |s.requests| && WellFormedPhase(cfg, p)
    requires Counts(p) ==> Counts(s.requests[i])
    requires forall k | 0 <= k < |cfg.rules| && cfg.rules[k].window in s.rows
                        && s.rows[cfg.rules[k].window].LiveAt(s.now) ::
               Share(cfg, p, cfg.rules[k], s.rows[cfg.rules[k].window].EndsAt())
               <= Share(cfg, s.requests[i], cfg.rules[k], s.rows[cfg.rules[k].window].EndsAt())
    ensures Inv(cfg, s.(requests := s.requests[i := p]))
  {
    var t := s.(requests := s.requests[i := p]);
    ActiveUpdate(s.requests, i, p);
    forall k | 0 <= k < |cfg.rules| && cfg.rules[k].window in t.rows ensures Bounded(cfg, t, cfg.rules[k]) {
      var rule := cfg.rules[k];
      assert Bounded(cfg, s, rule);
      PotentialUpdate(cfg, s.requests, i, p, rule, s.rows[rule.window].EndsAt());
    }
  }

  /** The decision of a doomed request is a refusal while the row is live. */
  lemma DoomedIsRefused(cfg: Config, s: State, p: Phase, d: Decision, k: nat)
    requires WellFormed(cfg.rules) && k < |cfg.rules|
    requires p.Read? && IsDecision(cfg.rules, p.snapshot, s.now, d)
    requires cfg.rules[k].window in s.rows && s.rows[cfg.rules[k].window].LiveAt(s.now)
    requires Doomed(p, cfg.rules[k], s.rows[cfg.rules[k].window].EndsAt())
    ensures d.Blocked?
  {
    assert GoodRule(cfg.rules, k);
    assert Exhausted(cfg.rules, p.snapshot, s.now, k);
  }

  lemma DecideStep(cfg: Config, s: State, i: nat, d: Decision)
    requires ValidConfig(cfg) && Inv(cfg, s) && i < |s.requests| && s.requests[i].Read?
    requires IsDecision(cfg.rules, s.requests[i].snapshot, s.now, d) && (d.Admitted? ==> s.requests[i].admits)
    ensures Inv(cfg, s.(requests := s.requests[i := AfterDecision(cfg, d, s.now)]))
  {
    var p := AfterDecision(cfg, d, s.now);
    forall k | 0 <= k < |cfg.rules| && cfg.rules[k].window in s.rows && s.rows[cfg.rules[k].window].LiveAt(s.now)
      ensures Share(cfg, p, cfg.rules[k], s.rows[cfg.rules[k].window].EndsAt())
           <= Share(cfg, s.requests[i], cfg.rules[k], s.rows[cfg.rules[k].window].EndsAt())
    {
      if Doomed(s.requests[i], cfg.rules[k], s.rows[cfg.rules[k].window].EndsAt()) {
        DoomedIsRefused(cfg, s, s.requests[i], d, k);
      }
    }
    RequestStep(cfg, s, i, p);
  }

  /** Opening windows restarts only rows with nothing spent, and leaves the others alone. */
  lemma ApplyStep(cfg: Config, s: State, d: Decision, at: int)
    requires ValidConfig(cfg) && Inv(cfg, s) && d.Admitted?
    ensures Inv(cfg, s.(rows := Applied(s.rows, d, at)))
  {
    var t := s.(rows := Applied(s.rows, d, at));
    forall k | 0 <= k < |cfg.rules| && cfg.rules[k].window in t.rows ensures Bounded(cfg, t, cfg.rules[k]) {
      var rule := cfg.rules[k];
      assert GoodRule(cfg.rules, k);
      if rule.window in s.rows && t.rows[rule.window] == s.rows[rule.window] {
        assert Bounded(cfg, s, rule);
      }
    }
  }

  /** All requests in flight together can still add at most the cost of k requests. */
  lemma PotentialWithinLimit(cfg: Config, s: State, rule: Rule, endsAt: int)
    requires ValidConfig(cfg) && Inv(cfg, s)
    ensures Potential(cfg, s.requests, rule, endsAt) <= CostOf(cfg, cfg.k)
  {
    PotentialWithinCost(cfg, s.requests, rule, endsAt);
    CostOfGrows(cfg, Active(s.requests), cfg.k);
  }

  /** The charge that first exhausts a window leaves the other requests' potential as its only overdraft. */
  lemma ChargeRule(cfg: Config, s: State, i: nat, amount: real, p: Phase, rule: Rule)
    requires ValidConfig(cfg) && Inv(cfg, s) && i < |s.requests| && s.requests[i].Spending?
    requires 0.0 <= amount <= s.requests[i].left
    requires p == Done || p == Spending(s.requests[i].left - amount)
    requires rule.window in s.rows && Bounded(cfg, s, rule)
    ensures Bounded(cfg, s.(rows := Charged(s.rows, amount), requests := s.requests[i := p]), rule)
  {
    var endsAt := s.rows[rule.window].EndsAt();
    PotentialUpdate(cfg, s.requests, i, p, rule, endsAt);
    PotentialWithinLimit(cfg, s, rule, endsAt);
    var before, after := Potential(cfg, s.requests, rule, endsAt), Potential(cfg, s.requests[i := p], rule, endsAt);
    assert after + amount <= before;
  }

  lemma ChargeStep(cfg: Config, s: State, i: nat, amount: real, p: Phase)
    requires ValidConfig(cfg) && Inv(cfg, s) && i < |s.requests| && s.requests[i].Spending?
    requires 0.0 <= amount <= s.requests[i].left
    requires p == Done || p == Spending(s.requests[i].left - amount)
    ensures Inv(cfg, s.(rows := Charged(s.rows, amount), requests := s.requests[i := p]))
  {
    var t := s.(rows := Charged(s.rows, amount), requests := s.requests[i := p]);
    assert WellFormedPhase(cfg, s.requests[i]);
    ActiveUpdate(s.requests, i, p);
    forall k | 0 <= k < |cfg.rules| && cfg.rules[k].window in t.rows ensures Bounded(cfg, t, cfg.rules[k]) {
      ChargeRule(cfg, s, i, amount, p, cfg.rules[k]);
    }
  }

  lemma ReadStep(cfg: Config, s: State, admits: bool)
    requires ValidConfig(cfg) && Inv(cfg, s) && (admits ==> Active(s.requests) < cfg.k)
    ensures Inv(cfg, s.(requests := s.requests + [Read(s.rows, admits)]))
  {
    var p := Read(s.rows, admits);
    var t := s.(requests := s.requests + [p]);
    Appended(cfg, s.requests, p, Rule(0, 0.0), 0);
    forall k | 0 <= k < |cfg.rules| && cfg.rules[k].window in t.rows ensures Bounded(cfg, t, cfg.rules[k]) {
      assert Bounded(cfg, s, cfg.rules[k]);
      Appended(cfg, s.requests, p, cfg.rules[k], s.rows[cfg.rules[k].window].EndsAt());
    }
  }

  /** Time passing and windows deleted only drop obligations. */
  lemma ShrinkStep(cfg: Config, s: State, now: int, lengths: set<int>)
    requires ValidConfig(cfg) && Inv(cfg, s) && s.now <= now
    ensures Inv(cfg, s.(now := now, rows := Removed(s.rows, lengths)))
  {
    var t := s.(now := now, rows := Removed(s.rows, lengths));
    forall k | 0 <= k < |cfg.rules| && cfg.rules[k].window in t.rows ensures Bounded(cfg, t, cfg.rules[k]) {
      assert Bounded(cfg, s, cfg.rules[k]);
    }
  }

  lemma StepKeepsInvariant(cfg: Config, s: State, e: Event, t: State)
    requires ValidConfig(cfg) && Inv(cfg, s) && Step(cfg, s, e, t)
    ensures Inv(cfg, t)
  {
    match e
    case Tick(to) =>
      ShrinkStep(cfg, s, to, {});
      assert Removed(s.rows, {}) == s.rows;
    case ReadRows(admits) =>
      ReadStep(cfg, s, admits);
    case DecideNow(i, d) =>
      DecideStep(cfg, s, i, d);
    case WriteOpen(i) =>
      RequestStep(cfg, s, i, Spending(cfg.cost));
      ApplyStep(cfg, s.(requests := s.requests[i := Spending(cfg.cost)]), s.requests[i].decision, s.requests[i].at);
    case FailOpen(i, written) =>
      PhaseIsWellFormed(cfg, s, i);
      RequestStep(cfg, s, i, Done);
      if written {
        ApplyStep(cfg, s.(requests := s.requests[i := Done]), s.requests[i].decision, s.requests[i].at);
      }
    case Charge(i, amount, last) =>
      ChargeStep(cfg, s, i, amount, if last then Done else Spending(s.requests[i].left - amount));
    case Abandon(i) =>
      PhaseIsWellFormed(cfg, s, i);
      RequestStep(cfg, s, i, Done);
    case Delete(lengths) =>
      ShrinkStep(cfg, s, s.now, lengths);
  }

  lemma PhaseIsWellFormed(cfg: Config, s: State, i: nat)
    requires ValidConfig(cfg) && Inv(cfg, s) && i < |s.requests|
    ensures WellFormedPhase(cfg, s.requests[i])
    ensures forall rule, endsAt :: 0.0 <= Share(cfg, s.requests[i], rule, endsAt)
  {
    assert WellFormedPhase(cfg, s.requests[i]);
  }

  lemma {:induction false} RunKeepsInvariant(cfg: Config, states: seq<State>, n: nat)
    requires ValidConfig(cfg) && Run(cfg, states) && n < |states|
    ensures Inv(cfg, states[n])
  {
    if n > 0 {
      RunKeepsInvariant(cfg, states, n - 1);
      assert Next(cfg, states[n - 1], states[n - 1 + 1]);
      var e :| Step(cfg, states[n - 1], e, states[n]);
      StepKeepsInvariant(cfg, states[n - 1], e, states[n]);
    }
  }

  // ---- When reading and deciding are one step ----

  /** Admitted and not charged in full. */
  predicate InFlight(p: Phase) { p.Opening? || p.Spending? }

  function Uncharged(requests: seq<Phase>): nat {
    if requests == [] then 0 else Uncharged(requests[1..]) + (if InFlight(requests[0]) then 1 else 0)
  }

  /**
   The request decides on the rows as they are; a refusal is always possible, an admission
   with fewer than k uncharged.
   */
  ghost predicate AtomicAdmit(cfg: Config, s: State, d: Decision, t: State) {
    && IsDecision(cfg.rules, s.rows, s.now, d)
    && (d.Admitted? ==> Uncharged(s.requests) < cfg.k)
    && t == s.(requests := s.requests + [AfterDecision(cfg, d, s.now)])
  }

  ghost predicate AtomicNext(cfg: Config, s: State, t: State) {
    || (exists d :: AtomicAdmit(cfg, s, d, t))
    || (exists e: Event :: !e.ReadRows? && !e.DecideNow? && Step(cfg, s, e, t))
  }

  ghost predicate AtomicRun(cfg: Config, states: seq<State>) {
    && |states| > 0
    && Init(states[0])
    && forall i | 0 <= i < |states| - 1 :: AtomicNext(cfg, states[i], states[i + 1])
  }

  /** Without readings in between, the requests that count are those admitted and uncharged. */
  ghost predicate NoReadings(s: State) {
    forall i | 0 <= i < |s.requests| :: !s.requests[i].Read?
  }

  lemma {:induction false} ActiveIsUncharged(requests: seq<Phase>)
    requires forall i | 0 <= i < |requests| :: !requests[i].Read?
    ensures Active(requests) == Uncharged(requests)
  {
    if requests != [] { ActiveIsUncharged(requests[1..]); }
  }

  /** Deciding at once is a reading marked right, followed by its decision. */
  lemma AtomicStepKeeps(cfg: Config, s: State, d: Decision, t: State)
    requires ValidConfig(cfg) && Inv(cfg, s) && NoReadings(s) && AtomicAdmit(cfg, s, d, t)
    ensures Inv(cfg, t) && NoReadings(t)
  {
    ActiveIsUncharged(s.requests);
    var n := |s.requests|;
    var read := s.(requests := s.requests + [Read(s.rows, d.Admitted?)]);
    StepKeepsInvariant(cfg, s, ReadRows(d.Admitted?), read);
    assert read.requests[n := AfterDecision(cfg, d, s.now)] == t.requests;
    StepKeepsInvariant(cfg, read, DecideNow(n, d), t);
  }

  lemma {:induction false} AtomicRunKeeps(cfg: Config, states: seq<State>, n: nat)
    requires ValidConfig(cfg) && AtomicRun(cfg, states) && n < |states|
    ensures Inv(cfg, states[n]) && NoReadings(states[n])
  {
    if n > 0 {
      AtomicRunKeeps(cfg, states, n - 1);
      var s, t := states[n - 1], states[n];
      assert AtomicNext(cfg, states[n - 1], states[n - 1 + 1]);
      if d :| AtomicAdmit(cfg, s, d, t) {
        AtomicStepKeeps(cfg, s, d, t);
      } else {
        var e: Event :| !e.ReadRows? && !e.DecideNow? && Step(cfg, s, e, t);
        StepKeepsInvariant(cfg, s, e, t);
      }
    }
  }

  /**
   If every request decides on the rows as they are, k counts exactly the requests admitted
   and not yet charged in full.
   */
  lemma AtomicBound(cfg: Config, states: seq<State>, n: nat)
    requires ValidConfig(cfg) && AtomicRun(cfg, states) && n < |states|
    ensures WithinBound(cfg, states[n])
  {
    AtomicRunKeeps(cfg, states, n);
    InvariantBounds(cfg, states[n]);
  }
}
