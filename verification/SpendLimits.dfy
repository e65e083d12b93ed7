/**
 The spend-limit service: the defaults in memory, the gate's admission, and the
 administrators' changes. Any repository call may fail, having written nothing.
 Which ones do is a parameter of each method, and so is the clock's reading.
 */
module SpendLimits {
  import opened Options
  import opened Limits
  import opened SpendWindows

  datatype Outcome =
    | Ok
    | Forbidden             // the actor is not an administrator
    | Refused(v: Validation) // the set or window is not acceptable
    | NotFound
    | Failed                // a repository call failed before the change
    | Incomplete            // the change is made, a later step failed
    | Unshown               // all is done, but the closing view could not be read

  /**
   Which repository calls fail: finding the account, making the change, auditing it, reading
   and deleting windows, reading them for the view.
   */
  datatype Faults = Faults(find: bool, change: bool, audit: bool, read: bool, clean: bool, view: bool)

  /** The set in force for an account: its own when it has one, even an empty one, else the defaults. */
  function EffectiveSet(custom: Option<RuleSet>, defaults: RuleSet): RuleSet {
    custom.GetOr(defaults)
  }

  /** An account's own set wins, even an empty one; without one the defaults are in force. */
  predicate IsInForce(rules: RuleSet, custom: Option<RuleSet>, defaults: RuleSet) {
    match custom
    case Some(own) => rules == own
    case None => rules == defaults
  }

  class Service {
    var users: map<Account, Option<RuleSet>>
    var storedDefaults: RuleSet
    var defaults: RuleSet
    const windows: Store

    ghost predicate Valid()
      reads this, windows
    {
      windows.Valid()
    }

    /** The set answered from memory is the stored one. */
    ghost predicate InForceIsStored()
      reads this
    {
      defaults == storedDefaults
    }

    function Effective(custom: Option<RuleSet>): RuleSet
      reads this
    {
      EffectiveSet(custom, defaults)
    }

    constructor (users: map<Account, Option<RuleSet>>, storedDefaults: RuleSet, windows: Store)
      requires windows.Valid()
      ensures Valid() && this.windows == windows && defaults == []
      ensures this.users == users && this.storedDefaults == storedDefaults
    {
      this.users, this.storedDefaults, this.windows := users, storedDefaults, windows;
      defaults := [];
    }

    /** Load reads the stored defaults into memory. */
    method Load(works: bool)
      modifies this`defaults
      ensures works ==> InForceIsStored()
      ensures !works ==> defaults == old(defaults)
    {
      if works { defaults := storedDefaults; }
    }

    /**
     Admit decides, and writes what an admission opens and drops in one call, only
     when there is something to write. A refusal and a failure write nothing. The
     answer is absent exactly when the read fails, or a write that is needed does.
     */
    method Admit(a: Account, rules: RuleSet, now: int, readable: bool, writable: bool)
      returns (answer: Option<Decision>)
      requires Valid()
      modifies windows
      ensures Valid()
      ensures answer.None? <==> !readable || (!writable && !NothingToWrite(rules, old(windows.Of(a)), now))
      ensures answer.Some? ==> IsDecision(rules, old(windows.Of(a)), now, answer.value)
      ensures answer.Some? && answer.value.Admitted? ==>
                windows.Of(a) == Applied(old(windows.Of(a)), answer.value, now)
      ensures answer.None? || answer.value.Blocked? || answer.value == Admitted([], []) ==>
                windows.rows == old(windows.rows)
      ensures forall b | b != a :: windows.Of(b) == old(windows.Of(b))
      ensures answer.Some? && answer.value.Admitted? && WellFormed(rules) ==>
                windows.Of(a).Keys == Lengths(rules) && IsDecision(rules, windows.Of(a), now, Admitted([], []))
    {
      if !readable { return None; }
      var rows := windows.Windows(a);
      var decision := Decide(rules, rows, now);
      DecisionWrites(rules, windows.Of(a), now, decision);
      if decision.Blocked? || (decision.open == [] && decision.orphans == []) {
        return Some(decision);
      }
      Write(a, decision, now, writable);
      return if writable then Some(decision) else None;
    }

    /** What an admission opens and drops, in one call. */
    method Write(a: Account, decision: Decision, now: int, works: bool)
      requires Valid() && decision.Admitted?
      modifies windows
      ensures Valid()
      ensures works ==> windows.Of(a) == Applied(old(windows.Of(a)), decision, now)
      ensures !works ==> windows.rows == old(windows.rows)
      ensures forall b | b != a :: windows.Of(b) == old(windows.Of(b))
    {
      windows.Open(a, RuleLengths(decision.open), Elements(decision.orphans), now, works);
    }

    /**
     SetDefaults stores the set, swaps it into memory, audits, and drops the stale
     windows of every inheriting account.
     */
    method SetDefaults(admin: bool, rules: RuleSet, faults: Faults) returns (r: Outcome)
      requires Valid()
      modifies this`storedDefaults, this`defaults, windows
      ensures Valid()
      ensures old(InForceIsStored()) ==> InForceIsStored()
      ensures r == Forbidden <==> !admin
      ensures r.Refused? <==> admin && !WellFormed(rules)
      ensures r.Refused? ==> IsVerdict(rules, r.v)
      ensures r == Failed <==> admin && WellFormed(rules) && faults.change
      ensures r == Incomplete <==> admin && WellFormed(rules) && !faults.change && (faults.audit || faults.clean)
      ensures r != NotFound && r != Unshown
      ensures r in {Forbidden, Failed} || r.Refused? ==>
                defaults == old(defaults) && storedDefaults == old(storedDefaults) && windows.rows == old(windows.rows)
      ensures r in {Ok, Incomplete} ==> defaults == storedDefaults == rules
      ensures r == Incomplete ==> windows.rows == old(windows.rows)
      ensures r == Ok ==> forall a | a in users && users[a].None? ::
                            windows.Of(a) == Restricted(old(windows.Of(a)), Lengths(rules))
      ensures r == Ok ==> forall a | a !in users || users[a].Some? :: windows.Of(a) == old(windows.Of(a))
      ensures r == Ok ==> forall a | a in users && users[a].None? ::
                            windows.Of(a).Keys <= Lengths(defaults)
    {
      if !admin { return Forbidden; }
      var v := Validate(rules);
      if v != Accepted { return Refused(v); }
      if faults.change { return Failed; }
      storedDefaults := rules;
      defaults := rules;
      if faults.audit { return Incomplete; }
      var inheriting := set a | a in users && users[a].None?;
      windows.DropInherited(inheriting, Lengths(rules), !faults.clean);
      return if faults.clean then Incomplete else Ok;
    }

    /**
     SetUser gives an account its own set, or none, audits, and deletes the windows
     its effective set no longer has. It ends with the account's view, at its own
     instant.
     */
    method SetUser(admin: bool, a: Account, custom: Option<RuleSet>, now: int, viewedAt: int, faults: Faults)
      returns (r: Outcome, view: seq<WindowState>)
      requires Valid()
      modifies this`users, windows
      ensures Valid()
      ensures r == Forbidden <==> !admin
      ensures r.Refused? <==> admin && custom.Some? && !WellFormed(custom.value)
      ensures r.Refused? ==> IsVerdict(custom.value, r.v)
      ensures r == NotFound <==> admin && (custom.None? || WellFormed(custom.value)) && !faults.find && a !in old(users)
      ensures r == Failed <==>
                admin && (custom.None? || WellFormed(custom.value)) && (faults.find ||
                    (a in old(users) && faults.change))
      ensures r in {Ok, Incomplete, Unshown} ==>
                (r == Incomplete <==> faults.audit || faults.read
                                      || (faults.clean && !(old(windows.Of(a)).Keys <= Lengths(Effective(custom)))))
      ensures r in {Ok, Unshown} ==> (r == Unshown <==> faults.view)
      ensures r in {Forbidden, NotFound, Failed} || r.Refused? ==>
                users == old(users) && windows.rows == old(windows.rows)
      ensures r in {Ok, Incomplete, Unshown} ==> a in old(users) && users == old(users)[a := custom]
      ensures r == Incomplete ==> windows.rows == old(windows.rows)
      ensures r in {Ok, Unshown} ==> windows.Of(a) == Restricted(old(windows.Of(a)), Lengths(Effective(custom)))
      ensures r in {Ok, Unshown} ==> forall rules | IsInForce(rules, custom, defaults) ::
                windows.Of(a) == Restricted(old(windows.Of(a)), Lengths(rules))
                && windows.Of(a).Keys <= Lengths(rules)
      ensures r == Ok ==> forall rules | IsInForce(rules, custom, defaults) ::
                AreStates(rules, windows.Of(a), viewedAt, view)
      ensures forall b | b != a :: windows.Of(b) == old(windows.Of(b))
    {
      view := [];
      if !admin { return Forbidden, []; }
      if custom.Some? {
        var v := Validate(custom.value);
        if v != Accepted { return Refused(v), []; }
      }
      if faults.find { return Failed, []; }
      if a !in users { return NotFound, []; }
      if faults.change { return Failed, []; }
      users := users[a := custom];
      if faults.audit || faults.read { return Incomplete, []; }
      var dropped := DropOrphans(a, Effective(custom), now, !faults.clean);
      if !dropped { return Incomplete, []; }
      r, view := View(a, custom, viewedAt, !faults.view);
    }

    /** The account's effective set with its live windows. */
    method View(a: Account, custom: Option<RuleSet>, now: int, works: bool) returns (r: Outcome, view: seq<WindowState>)
      requires Valid()
      ensures r == if works then Ok else Unshown
      ensures r == Ok ==> forall rules | IsInForce(rules, custom, defaults) ::
                AreStates(rules, windows.Of(a), now, view)
    {
      if !works { return Unshown, []; }
      var rows := windows.Windows(a);
      view := States(Effective(custom), rows, now);
      r := Ok;
    }

    /** Deletes the account's windows that no rule of the set has. */
    method DropOrphans(a: Account, rules: RuleSet, now: int, works: bool) returns (ok: bool)
      requires Valid()
      modifies windows
      ensures Valid()
      ensures ok <==> works || old(windows.Of(a)).Keys <= Lengths(rules)
      ensures ok ==> windows.Of(a) == Restricted(old(windows.Of(a)), Lengths(rules))
      ensures !ok ==> windows.rows == old(windows.rows)
      ensures forall b | b != a :: windows.Of(b) == old(windows.Of(b))
    {
      var rows := windows.Windows(a);
      var decision := Decide(rules, rows, now);
      OrphansAreOutside(rules, windows.Of(a), now, decision);
      if decision.orphans == [] { return true; }
      windows.Open(a, {}, Elements(decision.orphans), now, works);
      return works;
    }

    /**
     Reset deletes the account's window of that length, or every one, and refuses a length its
     set has no rule for. It ends with the account's view.
     */
    method Reset(admin: bool, a: Account, window: Option<int>, viewedAt: int, faults: Faults)
      returns (r: Outcome, view: seq<WindowState>)
      requires Valid()
      modifies windows
      ensures Valid()
      ensures r == Forbidden <==> !admin
      ensures r == NotFound <==> admin && !faults.find && a !in users
      ensures r.Refused? <==>
                admin && !faults.find && a in users && window.Some? && window.value !in Lengths(Effective(users[a]))
      ensures r.Refused? ==>
                && r.v == Invalid(0, FieldWindow)
                && forall rules | IsInForce(rules, users[a], defaults) :: window.value !in Lengths(rules)
      ensures r == Failed ==> faults.find || faults.change
      ensures r in {Ok, Incomplete, Unshown} ==>
                r == if faults.audit then Incomplete else if faults.view then Unshown else Ok
      ensures r in {Forbidden, NotFound, Failed} || r.Refused? ==> windows.rows == old(windows.rows)
      ensures r in {Ok, Incomplete, Unshown} ==>
                && a in users && !faults.find && !faults.change
                && (window.Some? ==> window.value in Lengths(Effective(users[a])))
                && windows.Of(a) == match window {
                                      case None => map[]
                                      case Some(l) => Removed(old(windows.Of(a)), {l})
                                    }
      ensures r == Ok ==> forall rules | IsInForce(rules, users[a], defaults) ::
                AreStates(rules, windows.Of(a), viewedAt, view)
      ensures forall b | b != a :: windows.Of(b) == old(windows.Of(b))
    {
      view := [];
      if !admin { return Forbidden, []; }
      if faults.find { return Failed, []; }
      if a !in users { return NotFound, []; }
      if window.Some? {
        var rules := Effective(users[a]);
        var inForce := exists i | 0 <= i < |rules| :: rules[i].window == window.value;
        if !inForce { return Refused(Invalid(0, FieldWindow)), []; }
      }
      windows.Reset(a, window.None?, window.GetOr(0), !faults.change);
      if faults.change { return Failed, []; }
      if faults.audit { return Incomplete, []; }
      r, view := View(a, users[a], viewedAt, !faults.view);
    }
  }

  // ---- Decisions that write nothing ----

  /** A refusal, or an account whose windows are all live and all have a rule. */
  predicate NothingToWrite(rules: RuleSet, m: Windows, now: int) {
    Blocks(rules, m, now) || ((forall i | 0 <= i < |rules| :: Holds(rules, m, now, i)) && m.Keys <= Lengths(rules))
  }

  lemma OrphansAreOutside(rules: RuleSet, m: Windows, now: int, d: Decision)
    requires IsDecision(rules, m, now, d)
    ensures Elements(d.orphans) == m.Keys - Lengths(rules)
    ensures d.orphans == [] <==> m.Keys <= Lengths(rules)
    ensures d.orphans == [] ==> Restricted(m, Lengths(rules)) == m
    ensures Opened(m, {}, Elements(d.orphans), now) == Restricted(m, Lengths(rules))
  {
    assert forall l :: Named(rules, |rules|, l) <==> l in Lengths(rules);
    if d.orphans != [] {
      assert d.orphans[0] in d.orphans;
    } else {
      forall l | l in m ensures l in Lengths(rules) { assert l !in d.orphans; }
    }
  }

  /** Whether a decision writes, and what it leaves when it does. */
  lemma DecisionWrites(rules: RuleSet, m: Windows, now: int, d: Decision)
    requires IsDecision(rules, m, now, d)
    ensures NothingToWrite(rules, m, now) <==> d.Blocked? || (d.open == [] && d.orphans == [])
    ensures d == Admitted([], []) ==> Applied(m, d, now) == m
    ensures d.Admitted? && WellFormed(rules) ==>
              Applied(m, d, now).Keys == Lengths(rules) && IsDecision(rules, Applied(m, d, now), now, Admitted([], []))
  {
    WritesNothing(rules, m, now, d);
    if d.Admitted? && WellFormed(rules) {
      AdmissionSettles(rules, m, now, d);
    }
  }

  lemma WritesNothing(rules: RuleSet, m: Windows, now: int, d: Decision)
    requires IsDecision(rules, m, now, d)
    ensures NothingToWrite(rules, m, now) <==> d.Blocked? || (d.open == [] && d.orphans == [])
    ensures d == Admitted([], []) ==> Applied(m, d, now) == m
  {
    OrphansAreOutside(rules, m, now, d);
    if d.Admitted? {
      if d.open != [] {
        assert d.open[0] in d.open;
      } else {
        assert forall i | 0 <= i < |rules| :: Holds(rules, m, now, i);
      }
    }
  }
}
