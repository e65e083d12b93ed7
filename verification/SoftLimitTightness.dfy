/**
 What the overdraft bound needs, for a set of one rule. The bound cannot be
 lowered: runs come as close to it as one likes, whatever the number of requests
 in flight and their cost. And requests have to be counted from the reading that
 admits them: with at most one request admitted and uncharged at any moment,
 decisions on old readings still pass any bound.
 */
module SoftLimitTightness {
  import opened Limits
  import opened SpendWindows
  import opened SoftLimit

  /** Some run ends in s, with at most limit requests admitted and uncharged at every moment of it. */
  ghost predicate Reachable(cfg: Config, limit: nat, s: State) {
    exists states :: Reaches(cfg, limit, states, s)
  }

  ghost predicate Reaches(cfg: Config, limit: nat, states: seq<State>, s: State) {
    && Run(cfg, states)
    && states[|states| - 1] == s
    && forall i | 0 <= i < |states| :: Uncharged(states[i].requests) <= limit
  }

  lemma Extend(cfg: Config, limit: nat, s: State, e: Event, t: State)
    requires Reachable(cfg, limit, s) && Step(cfg, s, e, t) && Uncharged(t.requests) <= limit
    ensures Reachable(cfg, limit, t)
  {
    var states :| Reaches(cfg, limit, states, s);
    var longer := states + [t];
    forall i | 0 <= i < |longer| - 1 ensures Next(cfg, longer[i], longer[i + 1]) {
      if i < |states| - 1 { assert Next(cfg, states[i], states[i + 1]); }
    }
    assert Reaches(cfg, limit, longer, t);
  }

  ghost predicate OneRule(cfg: Config) {
    ValidConfig(cfg) && |cfg.rules| == 1 && cfg.cost > 0.0 && GoodRule(cfg.rules, 0)
  }

  /** done requests finished, then n in phase p. */
  function Requests(done: nat, n: nat, p: Phase): (r: seq<Phase>)
    ensures |r| == done + n
    ensures forall i | 0 <= i < done :: r[i] == Done
    ensures forall i | done <= i < |r| :: r[i] == p
  {
    seq(done + n, i requires 0 <= i => if i < done then Done else p)
  }

  lemma {:induction false} CountRequests(done: nat, n: nat, p: Phase)
    ensures Active(Requests(done, n, p)) == if Counts(p) then n else 0
    ensures Uncharged(Requests(done, n, p)) == if InFlight(p) then n else 0
    decreases done, n
  {
    var r := Requests(done, n, p);
    if done > 0 {
      assert r[1..] == Requests(done - 1, n, p);
      CountRequests(done - 1, n, p);
    } else if n > 0 {
      assert r[1..] == Requests(0, n - 1, p);
      CountRequests(0, n - 1, p);
    }
  }

  lemma {:induction false} UnchargedUpdate(requests: seq<Phase>, i: nat, p: Phase)
    requires i < |requests|
    ensures Uncharged(requests[i := p])
         == Uncharged(requests) - (if InFlight(requests[i]) then 1 else 0) + (if InFlight(p) then 1 else 0)
  {
    var after := requests[i := p];
    if i == 0 {
      assert after[1..] == requests[1..];
    } else {
      assert after[1..] == requests[1..][i - 1 := p];
      UnchargedUpdate(requests[1..], i - 1, p);
    }
  }

  /** The rule's window as it stands at time 0, when it was opened, having spent that much. */
  function Row(cfg: Config, spent: real): Windows
    requires |cfg.rules| == 1
  {
    var l := cfg.rules[0].window;
    map[l := Window(l, 0, spent)]
  }

  function At(cfg: Config, done: nat, n: nat, p: Phase, spent: real): State
    requires |cfg.rules| == 1
  {
    State(0, Row(cfg, spent), Requests(done, n, p))
  }

  /** A reading that shows less than the amount spent admits, and there is nothing to write. */
  lemma AdmitsAtOnce(cfg: Config, spent: real)
    requires OneRule(cfg) && spent < cfg.rules[0].amountUSD
    ensures IsDecision(cfg.rules, Row(cfg, spent), 0, Admitted([], []))
  {
    var m := Row(cfg, spent);
    assert Holds(cfg.rules, m, 0, 0);
    assert Due(cfg.rules, m, 0, 0) == [];
    assert Due(cfg.rules, m, 0, 1) == [];
    assert Named(cfg.rules, 1, cfg.rules[0].window);
  }

  /** One more reading, to be admitted, while fewer than k count. */
  lemma ReadOne(cfg: Config, limit: nat, done: nat, n: nat, p: Phase, spent: real)
    requires OneRule(cfg) && n < cfg.k
    requires Reachable(cfg, limit, At(cfg, done, n, p, spent))
    ensures var s := At(cfg, done, n, p, spent);
            Reachable(cfg, limit, s.(requests := s.requests + [Read(s.rows, true)]))
  {
    var s := At(cfg, done, n, p, spent);
    var read := Read(s.rows, true);
    var t := s.(requests := s.requests + [read]);
    CountRequests(done, n, p);
    UnchargedAppend(s.requests, read);
    assert Uncharged(s.requests) <= limit by {
      var states :| Reaches(cfg, limit, states, s);
      assert states[|states| - 1] == s;
    }
    Extend(cfg, limit, s, ReadRows(true), t);
  }

  lemma {:induction false} UnchargedAppend(requests: seq<Phase>, p: Phase)
    ensures Uncharged(requests + [p]) == Uncharged(requests) + if InFlight(p) then 1 else 0
  {
    if requests != [] {
      assert (requests + [p])[1..] == requests[1..] + [p];
      UnchargedAppend(requests[1..], p);
    }
  }

  /** A request that read less than the amount spent is admitted on that reading, whatever has been spent since. */
  lemma DecideOne(cfg: Config, limit: nat, s: State, i: nat, before: real)
    requires OneRule(cfg) && before < cfg.rules[0].amountUSD && s.now == 0
    requires i < |s.requests| && s.requests[i] == Read(Row(cfg, before), true)
    requires Reachable(cfg, limit, s) && Uncharged(s.requests) < limit
    ensures Reachable(cfg, limit, s.(requests := s.requests[i := Spending(cfg.cost)]))
  {
    AdmitsAtOnce(cfg, before);
    UnchargedUpdate(s.requests, i, Spending(cfg.cost));
    Extend(cfg, limit, s, DecideNow(i, Admitted([], [])), s.(requests := s.requests[i := Spending(cfg.cost)]));
  }

  /** A request charged once is done. */
  lemma ChargeOne(cfg: Config, limit: nat, s: State, i: nat, amount: real)
    requires i < |s.requests| && s.requests[i] == Spending(cfg.cost) && 0.0 <= amount <= cfg.cost
    requires Reachable(cfg, limit, s) && Uncharged(s.requests) <= limit
    ensures Reachable(cfg, limit, s.(rows := Charged(s.rows, amount), requests := s.requests[i := Done]))
  {
    UnchargedUpdate(s.requests, i, Done);
    Extend(cfg, limit, s, Charge(i, amount, true),
           s.(rows := Charged(s.rows, amount), requests := s.requests[i := Done]));
  }

  /** The first request opens the window. */
  lemma OpenFirst(cfg: Config, limit: nat)
    requires OneRule(cfg) && cfg.k >= 1 && limit >= 1
    ensures Reachable(cfg, limit, At(cfg, 0, 1, Spending(cfg.cost), 0.0))
  {
    var rule := cfg.rules[0];
    var s0 := State(0, map[], []);
    assert Reaches(cfg, limit, [s0], s0);
    var s1 := s0.(requests := [Read(map[], true)]);
    assert s0.requests + [Read(s0.rows, true)] == s1.requests;
    Extend(cfg, limit, s0, ReadRows(true), s1);
    var d := Admitted([rule], []);
    assert !Holds(cfg.rules, map[], 0, 0);
    assert Due(cfg.rules, map[], 0, 0) == [];
    assert Due(cfg.rules, map[], 0, 1) == [rule];
    assert IsDecision(cfg.rules, map[], 0, d);
    var s2 := s1.(requests := [Opening(d, 0)]);
    assert s1.requests[0 := Opening(d, 0)] == s2.requests;
    Extend(cfg, limit, s1, DecideNow(0, d), s2);
    var t := At(cfg, 0, 1, Spending(cfg.cost), 0.0);
    assert rule in d.open;
    assert RuleLengths(d.open) == {rule.window};
    assert Applied(s2.rows, d, 0) == t.rows;
    assert s2.requests[0 := Spending(cfg.cost)] == t.requests;
    CountRequests(0, 1, Spending(cfg.cost));
    Extend(cfg, limit, s2, WriteOpen(0), t);
  }

  // ---- The bound cannot be lowered ----

  /** While the window is not exhausted another request is admitted at once, with nothing to write. */
  lemma AdmitOne(cfg: Config, limit: nat, done: nat, n: nat, spent: real)
    requires OneRule(cfg) && n < cfg.k && n < limit && spent < cfg.rules[0].amountUSD
    requires Reachable(cfg, limit, At(cfg, done, n, Spending(cfg.cost), spent))
    ensures Reachable(cfg, limit, At(cfg, done, n + 1, Spending(cfg.cost), spent))
  {
    var p := Spending(cfg.cost);
    var s, t := At(cfg, done, n, p, spent), At(cfg, done, n + 1, p, spent);
    ReadOne(cfg, limit, done, n, p, spent);
    CountRequests(done, n, p);
    var read := s.(requests := s.requests + [Read(s.rows, true)]);
    UnchargedAppend(s.requests, Read(s.rows, true));
    DecideOne(cfg, limit, read, done + n, spent);
    assert read.requests[done + n := p] == t.requests;
  }

  lemma ChargeFirst(cfg: Config, limit: nat, done: nat, n: nat, spent: real, amount: real)
    requires OneRule(cfg) && 0 < n <= limit && 0.0 <= amount <= cfg.cost
    requires Reachable(cfg, limit, At(cfg, done, n, Spending(cfg.cost), spent))
    ensures Reachable(cfg, limit, At(cfg, done + 1, n - 1, Spending(cfg.cost), spent + amount))
  {
    var p := Spending(cfg.cost);
    var s, t := At(cfg, done, n, p, spent), At(cfg, done + 1, n - 1, p, spent + amount);
    CountRequests(done, n, p);
    ChargeOne(cfg, limit, s, done, amount);
    assert Charged(s.rows, amount) == t.rows;
    assert s.requests[done := Done] == t.requests;
  }

  /** One request after another can spend any sum below the amount. */
  lemma {:induction false} SpendUpTo(cfg: Config, target: real, n: nat) returns (done: nat)
    requires OneRule(cfg) && cfg.k >= 1 && 0.0 <= target < cfg.rules[0].amountUSD
    requires target <= CostOf(cfg, n)
    ensures Reachable(cfg, cfg.k, At(cfg, done, 0, Spending(cfg.cost), target))
    decreases n
  {
    if target <= cfg.cost {
      OpenFirst(cfg, cfg.k);
      ChargeFirst(cfg, cfg.k, 0, 1, 0.0, target);
      done := 1;
    } else {
      done := SpendUpTo(cfg, target - cfg.cost, n - 1);
      AdmitOne(cfg, cfg.k, done, 0, target - cfg.cost);
      ChargeFirst(cfg, cfg.k, done, 1, target - cfg.cost, cfg.cost);
      done := done + 1;
    }
  }

  lemma {:induction false} AdmitMany(cfg: Config, done: nat, n: nat, spent: real)
    requires OneRule(cfg) && n <= cfg.k && spent < cfg.rules[0].amountUSD
    requires Reachable(cfg, cfg.k, At(cfg, done, 0, Spending(cfg.cost), spent))
    ensures Reachable(cfg, cfg.k, At(cfg, done, n, Spending(cfg.cost), spent))
  {
    if n > 0 {
      AdmitMany(cfg, done, n - 1, spent);
      AdmitOne(cfg, cfg.k, done, n - 1, spent);
    }
  }

  lemma {:induction false} ChargeMany(cfg: Config, done: nat, n: nat, spent: real)
    requires OneRule(cfg) && n <= cfg.k
    requires Reachable(cfg, cfg.k, At(cfg, done, n, Spending(cfg.cost), spent))
    ensures Reachable(cfg, cfg.k, At(cfg, done + n, 0, Spending(cfg.cost), spent + CostOf(cfg, n)))
    decreases n
  {
    if n > 0 {
      ChargeFirst(cfg, cfg.k, done, n, spent, cfg.cost);
      ChargeMany(cfg, done + 1, n - 1, spent + cfg.cost);
    }
  }

  lemma EnoughRequests(cfg: Config, target: real) returns (n: nat)
    requires cfg.cost > 0.0 && target >= 0.0
    ensures target <= CostOf(cfg, n)
  {
    n := (target / cfg.cost).Floor + 1;
    CostOfIsProduct(cfg, n);
    Scaled(target, cfg.cost, n as real);
  }

  lemma Scaled(target: real, cost: real, n: real)
    requires cost > 0.0 && target / cost <= n
    ensures target <= n * cost
  {
    var q := target / cost;
    assert q * cost == target;
    assert (n - q) * cost >= 0.0;
  }

  /** A live window can have spent anything short of the bound that a run must stay below. */
  lemma BoundIsTight(cfg: Config, eps: real)
    requires OneRule(cfg) && cfg.k >= 1 && 0.0 < eps <= cfg.rules[0].amountUSD
    ensures exists s :: Reachable(cfg, cfg.k, s)
                        && ShowsSpending(cfg, s, cfg.rules[0].amountUSD + cfg.k as real * cfg.cost - eps)
  {
    var amount := cfg.rules[0].amountUSD;
    var n := EnoughRequests(cfg, amount - eps);
    var done := SpendUpTo(cfg, amount - eps, n);
    AdmitMany(cfg, done, cfg.k, amount - eps);
    ChargeMany(cfg, done, cfg.k, amount - eps);
    CostOfIsProduct(cfg, cfg.k);
    var s := At(cfg, done + cfg.k, 0, Spending(cfg.cost), amount - eps + CostOf(cfg, cfg.k));
    assert ShowsSpending(cfg, s, amount + cfg.k as real * cfg.cost - eps);
  }

  /** The first rule's window is live and has spent that much. */
  ghost predicate ShowsSpending(cfg: Config, s: State, spent: real)
    requires |cfg.rules| > 0
  {
    var l := cfg.rules[0].window;
    l in s.rows && s.rows[l].LiveAt(s.now) && s.rows[l].spentUSD == spent
  }

  // ---- Counting from the admission is not enough ----

  /** A reading of the window freshly opened. */
  function Old(cfg: Config): Phase
    requires |cfg.rules| == 1
  {
    Read(Row(cfg, 0.0), true)
  }

  lemma {:induction false} ReadMany(cfg: Config, n: nat)
    requires OneRule(cfg) && 1 <= cfg.k && n <= cfg.k
    ensures Reachable(cfg, 1, At(cfg, 1, n, Old(cfg), 0.0))
  {
    if n == 0 {
      OpenFirst(cfg, 1);
      ChargeFirst(cfg, 1, 0, 1, 0.0, 0.0);
      assert At(cfg, 1, 0, Spending(cfg.cost), 0.0).requests == At(cfg, 1, 0, Old(cfg), 0.0).requests;
    } else {
      ReadMany(cfg, n - 1);
      ReadOne(cfg, 1, 1, n - 1, Old(cfg), 0.0);
      var s := At(cfg, 1, n - 1, Old(cfg), 0.0);
      assert s.requests + [Read(s.rows, true)] == At(cfg, 1, n, Old(cfg), 0.0).requests;
    }
  }

  /** The readings are decided and charged one after another, each admitted whatever was spent since. */
  lemma {:induction false} DecideMany(cfg: Config, done: nat, n: nat, spent: real)
    requires OneRule(cfg)
    requires Reachable(cfg, 1, At(cfg, done, n, Old(cfg), spent))
    ensures Reachable(cfg, 1, At(cfg, done + n, 0, Old(cfg), spent + CostOf(cfg, n)))
    decreases n
  {
    if n > 0 {
      var s, t := At(cfg, done, n, Old(cfg), spent), At(cfg, done + 1, n - 1, Old(cfg), spent + cfg.cost);
      assert GoodRule(cfg.rules, 0);
      CountRequests(done, n, Old(cfg));
      DecideOne(cfg, 1, s, done, 0.0);
      var u := s.(requests := s.requests[done := Spending(cfg.cost)]);
      UnchargedUpdate(s.requests, done, Spending(cfg.cost));
      ChargeOne(cfg, 1, u, done, cfg.cost);
      assert Charged(u.rows, cfg.cost) == t.rows;
      assert u.requests[done := Done] == t.requests;
      DecideMany(cfg, done + 1, n - 1, spent + cfg.cost);
    }
  }

  /**
   With at most one request admitted and uncharged at every moment, a live window
   can have spent more than any bound: many requests read it early and decide late.
   */
  lemma OldReadingsPassAnyBound(rules: RuleSet, cost: real, bound: real)
    requires OneRule(Config(rules, 1, cost))
    ensures exists k: nat, s, spent ::
              Reachable(Config(rules, k, cost), 1, s) && ShowsSpending(Config(rules, k, cost), s, spent) &&
                  spent > bound
  {
    var n := EnoughRequests(Config(rules, 1, cost), if bound < 0.0 then 1.0 else bound + 1.0);
    var k := n + 1;
    var cfg := Config(rules, k, cost);
    ReadMany(cfg, n);
    DecideMany(cfg, 1, n, 0.0);
    CostOfIsProduct(cfg, n);
    CostOfIsProduct(Config(rules, 1, cost), n);
    var s := At(cfg, 1 + n, 0, Old(cfg), 0.0 + CostOf(cfg, n));
    assert Reachable(Config(rules, k, cost), 1, s) && ShowsSpending(cfg, s, CostOf(cfg, n)) && CostOf(cfg, n) > bound;
  }
}
