/**
 The spend-limit rules: what an account may spend per window, and whether one
 more request is admitted. Times are integers in nanoseconds, amounts are reals.
 */
module Limits {
  import Sorting

  const MINUTE: int := 60_000_000_000
  const SECOND: int := 1_000_000_000
  const MAX_RULES: nat := 10
  const MIN_WINDOW: int := MINUTE
  const MAX_WINDOW: int := 365 * 24 * 60 * MINUTE
  const MAX_AMOUNT_USD: real := 1_000_000.0

  datatype Rule = Rule(window: int, amountUSD: real)
  type RuleSet = seq<Rule>

  /** The stored state of one rule's window for one account. */
  datatype Window = Window(length: int, startedAt: int, spentUSD: real) {
    function EndsAt(): int { startedAt + length }

    predicate LiveAt(now: int) { now < EndsAt() }
  }

  /** An account's stored windows, keyed by length. */
  type Windows = map<int, Window>

  // ---- Validation ----

  datatype Field = FieldCount | FieldWindow | FieldAmount
  datatype Validation = Accepted | Invalid(index: int, field: Field)

  /** One of the first n rules has that window. */
  predicate Named(rules: RuleSet, n: nat, length: int)
    requires n <= |rules|
  {
    exists j | 0 <= j < n :: rules[j].window == length
  }

  predicate Repeats(rules: RuleSet, i: nat)
    requires i < |rules|
  {
    Named(rules, i, rules[i].window)
  }

  predicate GoodWindow(rules: RuleSet, i: nat)
    requires i < |rules|
  {
    MIN_WINDOW <= rules[i].window <= MAX_WINDOW && rules[i].window % MINUTE == 0 && !Repeats(rules, i)
  }

  predicate GoodAmount(rule: Rule) { 0.0 < rule.amountUSD <= MAX_AMOUNT_USD }

  predicate GoodRule(rules: RuleSet, i: nat)
    requires i < |rules|
  {
    GoodWindow(rules, i) && GoodAmount(rules[i])
  }

  /** A set an administrator may store. */
  predicate WellFormed(rules: RuleSet) {
    |rules| <= MAX_RULES && forall i | 0 <= i < |rules| :: GoodRule(rules, i)
  }

  /**
   The answer on a set: accepted exactly when well formed, else naming the first rule that is
   wrong and its first field that is.
   */
  ghost predicate IsVerdict(rules: RuleSet, v: Validation) {
    && (v.Accepted? <==> WellFormed(rules))
    && (v.Invalid? && v.field.FieldCount? <==> |rules| > MAX_RULES)
    && (v.Invalid? && v.field.FieldCount? ==> v.index == -1)
    && (v.Invalid? && !v.field.FieldCount? ==>
          && 0 <= v.index < |rules|
          && (forall i | 0 <= i < v.index :: GoodRule(rules, i))
          && (v.field.FieldWindow? <==> !GoodWindow(rules, v.index))
          && (v.field.FieldAmount? <==> GoodWindow(rules, v.index) && !GoodAmount(rules[v.index])))
  }

  /**
   A well-formed set, in numbers: at most ten rules; windows of one minute to 365
   days in whole minutes, each once; amounts above nothing and at most a million.
   */
  lemma WellFormedInNumbers(rules: RuleSet)
    ensures WellFormed(rules) <==>
            && |rules| <= 10
            && (forall i | 0 <= i < |rules| ::
                  && 60_000_000_000 <= rules[i].window <= 31_536_000_000_000_000
                  && rules[i].window % 60_000_000_000 == 0
                  && 0.0 < rules[i].amountUSD <= 1_000_000.0)
            && (forall i, j | 0 <= i < j < |rules| :: rules[i].window != rules[j].window)
  {
    if WellFormed(rules) {
      forall i | 0 <= i < |rules|
        ensures 60_000_000_000 <= rules[i].window <= 31_536_000_000_000_000 && rules[i].window % 60_000_000_000 == 0
        ensures 0.0 < rules[i].amountUSD <= 1_000_000.0
        ensures forall j | 0 <= j < i :: rules[j].window != rules[i].window
      {
        assert GoodRule(rules, i);
      }
    }
  }

  /** Accepts exactly the well-formed sets, and otherwise names the first thing wrong. */
  method Validate(rules: RuleSet) returns (v: Validation)
    ensures IsVerdict(rules, v)
  {
    if |rules| > MAX_RULES {
      return Invalid(-1, FieldCount);
    }
    for index := 0 to |rules|
      invariant forall i | 0 <= i < index :: GoodRule(rules, i)
    {
      var rule := rules[index];
      var repeated := exists j | 0 <= j < index :: rules[j].window == rule.window;
      assert repeated <==> Repeats(rules, index);
      if rule.window < MIN_WINDOW || rule.window > MAX_WINDOW || rule.window % MINUTE != 0 || repeated {
        assert !GoodRule(rules, index);
        return Invalid(index, FieldWindow);
      }
      if rule.amountUSD <= 0.0 || rule.amountUSD > MAX_AMOUNT_USD {
        assert !GoodRule(rules, index);
        return Invalid(index, FieldAmount);
      }
    }
    return Accepted;
  }

  // ---- The decision ----

  /** The rows as a table: a later row of the same length replaces an earlier one. */
  function Stored(rows: seq<Window>): (m: Windows)
    ensures Keyed(m)
    ensures m.Keys == set i | 0 <= i < |rows| :: rows[i].length
  {
    if rows == [] then map[]
    else
      var last := rows[|rows| - 1];
      Stored(rows[..|rows| - 1])[last.length := last]
  }

  /** Of the rows of one length the last counts. */
  lemma {:induction false} LastRowIsStored(rows: seq<Window>, i: nat)
    requires i < |rows| && forall j | i < j < |rows| :: rows[j].length != rows[i].length
    ensures rows[i].length in Stored(rows) && Stored(rows)[rows[i].length] == rows[i]
  {
    var n := |rows| - 1;
    if i < n { LastRowIsStored(rows[..n], i); }
  }

  ghost predicate Keyed(m: Windows) {
    forall l | l in m :: m[l].length == l
  }

  function Lengths(rules: RuleSet): set<int> {
    set i | 0 <= i < |rules| :: rules[i].window
  }

  /** Rule i is the one its window is counted for, and that window is live. */
  predicate Holds(rules: RuleSet, m: Windows, now: int, i: nat)
    requires i < |rules|
  {
    rules[i].window in m && m[rules[i].window].LiveAt(now) && !Repeats(rules, i)
  }

  predicate Exhausted(rules: RuleSet, m: Windows, now: int, i: nat)
    requires i < |rules|
  {
    Holds(rules, m, now, i) && m[rules[i].window].spentUSD >= rules[i].amountUSD
  }

  predicate Blocks(rules: RuleSet, m: Windows, now: int) {
    exists i | 0 <= i < |rules| :: Exhausted(rules, m, now, i)
  }

  /** The rules among the first n that hold no live window, in the set's order. */
  function Due(rules: RuleSet, m: Windows, now: int, n: nat): (due: seq<Rule>)
    requires n <= |rules|
    ensures forall i | 0 <= i < n && !Holds(rules, m, now, i) :: rules[i] in due
    ensures forall r | r in due :: exists i | 0 <= i < n :: rules[i] == r && !Holds(rules, m, now, i)
  {
    if n == 0 then []
    else
      var due := Due(rules, m, now, n - 1);
      if Holds(rules, m, now, n - 1) then due else due + [rules[n - 1]]
  }

  /** Decide's answer; a refusal opens nothing. */
  datatype Decision =
    | Blocked(rule: Rule, resetsAt: int, wait: int, orphans: seq<int>)
    | Admitted(open: seq<Rule>, orphans: seq<int>)

  /** Among the first n rules, i is the first exhausted one whose window ends last. */
  ghost predicate LastOf(rules: RuleSet, m: Windows, now: int, n: nat, i: nat, rule: Rule, resetsAt: int)
    requires i < n <= |rules|
  {
    && Exhausted(rules, m, now, i)
    && rule == rules[i]
    && resetsAt == m[rules[i].window].EndsAt()
    && (forall j | 0 <= j < n && Exhausted(rules, m, now, j) :: m[rules[j].window].EndsAt() <= resetsAt)
    && (forall j | 0 <= j < i && Exhausted(rules, m, now, j) :: m[rules[j].window].EndsAt() < resetsAt)
  }

  ghost predicate NamesLast(rules: RuleSet, m: Windows, now: int, n: nat, rule: Rule, resetsAt: int)
    requires n <= |rules|
  {
    exists i | 0 <= i < n :: LastOf(rules, m, now, n, i, rule, resetsAt)
  }

  /** What the decision promises: the exhausted rule whose window ends last, what to open, what to drop. */
  ghost predicate IsDecision(rules: RuleSet, m: Windows, now: int, d: Decision) {
    && (d.Blocked? <==> Blocks(rules, m, now))
    && (d.Blocked? ==> d.wait == d.resetsAt - now && NamesLast(rules, m, now, |rules|, d.rule, d.resetsAt))
    && (d.Admitted? ==> d.open == Due(rules, m, now, |rules|))
    && Sorting.Ascending(d.orphans)
    && (forall l :: l in d.orphans <==> l in m && !Named(rules, |rules|, l))
  }

  /**
   The first n rules are decided: their lengths are taken out of the stored rows, the due
   ones opened, the last refusal kept.
   */
  ghost predicate Scanned(rules: RuleSet, m: Windows, now: int, n: nat,
                          stored: Windows, open: seq<Rule>, blocked: bool, rule: Rule, resetsAt: int) {
    && n <= |rules|
    && (forall l :: l in stored <==> l in m && !Named(rules, n, l))
    && (forall l | l in stored :: stored[l] == m[l])
    && open == Due(rules, m, now, n)
    && (blocked <==> exists i | 0 <= i < n :: Exhausted(rules, m, now, i))
    && (blocked ==> NamesLast(rules, m, now, n, rule, resetsAt))
  }

  method Decide(rules: RuleSet, rows: seq<Window>, now: int) returns (d: Decision)
    ensures IsDecision(rules, Stored(rows), now, d)
  {
    ghost var m := Stored(rows);
    var stored := Stored(rows);
    var blocked, rule, resetsAt := false, Rule(0, 0.0), 0;
    var open: seq<Rule> := [];
    ScanStarts(rules, m, now);
    for n := 0 to |rules|
      invariant Scanned(rules, m, now, n, stored, open, blocked, rule, resetsAt)
    {
      stored, open, blocked, rule, resetsAt := DecideRule(rules, m, now, n, stored, open, blocked, rule, resetsAt);
    }
    var orphans := SortedKeys(stored.Keys);
    d := Conclude(now, open, blocked, rule, resetsAt, orphans);
    ScanEnds(rules, m, now, stored, open, blocked, rule, resetsAt, orphans);
  }

  /** One turn of the loop: takes the rule's row out, and opens the rule, refuses for it, or neither. */
  method DecideRule(rules: RuleSet, ghost m: Windows, now: int, n: nat,
                    before: Windows, due: seq<Rule>, refused: bool, named: Rule, until: int)
    returns (stored: Windows, open: seq<Rule>, blocked: bool, rule: Rule, resetsAt: int)
    requires n < |rules| && Scanned(rules, m, now, n, before, due, refused, named, until)
    ensures Scanned(rules, m, now, n + 1, stored, open, blocked, rule, resetsAt)
  {
    stored, open, blocked, rule, resetsAt := before, due, refused, named, until;
    var length := rules[n].window;
    var found := length in stored;
    var window := if found then stored[length] else Window(0, 0, 0.0);
    stored := stored - {length};
    if !found || !window.LiveAt(now) {
      ScanDue(rules, m, now, n, before, due, refused, named, until);
      open := open + [rules[n]];
    } else if window.spentUSD >= rules[n].amountUSD && (!blocked || window.EndsAt() > resetsAt) {
      ScanLast(rules, m, now, n, before, due, refused, named, until);
      blocked, rule, resetsAt := true, rules[n], window.EndsAt();
    } else {
      ScanHeld(rules, m, now, n, before, due, refused, named, until);
    }
  }

  function Conclude(now: int, open: seq<Rule>, blocked: bool, rule: Rule, resetsAt: int, orphans: seq<int>): Decision {
    if blocked then Blocked(rule, resetsAt, resetsAt - now, orphans) else Admitted(open, orphans)
  }

  lemma ScanEnds(rules: RuleSet, m: Windows, now: int,
                 stored: Windows, open: seq<Rule>, blocked: bool, rule: Rule, resetsAt: int, orphans: seq<int>)
    requires Scanned(rules, m, now, |rules|, stored, open, blocked, rule, resetsAt)
    requires Sorting.Ascending(orphans) && forall l :: l in orphans <==> l in stored.Keys
    ensures IsDecision(rules, m, now, Conclude(now, open, blocked, rule, resetsAt, orphans))
  {
  }

  lemma ScanStarts(rules: RuleSet, m: Windows, now: int)
    ensures Scanned(rules, m, now, 0, m, [], false, Rule(0, 0.0), 0)
  {
  }

  lemma Taken(rules: RuleSet, m: Windows, n: nat, stored: Windows)
    requires n < |rules|
    requires forall l :: l in stored <==> l in m && !Named(rules, n, l)
    ensures var length := rules[n].window;
            && (length in stored <==> length in m && !Repeats(rules, n))
            && forall l :: l in stored - {length} <==> l in m && !Named(rules, n + 1, l)
  {
  }

  lemma ScanDue(rules: RuleSet, m: Windows, now: int, n: nat,
                stored: Windows, open: seq<Rule>, blocked: bool, rule: Rule, resetsAt: int)
    requires n < |rules| && Scanned(rules, m, now, n, stored, open, blocked, rule, resetsAt)
    requires var l := rules[n].window; l !in stored || !stored[l].LiveAt(now)
    ensures Scanned(rules, m, now, n + 1, stored - {rules[n].window}, open + [rules[n]], blocked, rule, resetsAt)
  {
    Taken(rules, m, n, stored);
    assert !Holds(rules, m, now, n);
    KeepsLast(rules, m, now, n, rule, resetsAt, blocked);
  }

  lemma ScanLast(rules: RuleSet, m: Windows, now: int, n: nat,
                 stored: Windows, open: seq<Rule>, blocked: bool, rule: Rule, resetsAt: int)
    requires n < |rules| && Scanned(rules, m, now, n, stored, open, blocked, rule, resetsAt)
    requires rules[n].window in stored
    requires var w := stored[rules[n].window];
             w.LiveAt(now) && w.spentUSD >= rules[n].amountUSD && (blocked ==> w.EndsAt() > resetsAt)
    ensures Scanned(rules, m, now, n + 1, stored - {rules[n].window}, open, true, rules[n],
        stored[rules[n].window].EndsAt())
  {
    Taken(rules, m, n, stored);
    assert Exhausted(rules, m, now, n);
    NewLast(rules, m, now, n, rule, resetsAt, blocked);
  }

  lemma ScanHeld(rules: RuleSet, m: Windows, now: int, n: nat,
                 stored: Windows, open: seq<Rule>, blocked: bool, rule: Rule, resetsAt: int)
    requires n < |rules| && Scanned(rules, m, now, n, stored, open, blocked, rule, resetsAt)
    requires rules[n].window in stored
    requires var w := stored[rules[n].window];
             w.LiveAt(now) && (w.spentUSD >= rules[n].amountUSD ==> blocked && w.EndsAt() <= resetsAt)
    ensures Scanned(rules, m, now, n + 1, stored - {rules[n].window}, open, blocked, rule, resetsAt)
  {
    Taken(rules, m, n, stored);
    assert Holds(rules, m, now, n);
    KeepsLast(rules, m, now, n, rule, resetsAt, blocked);
  }

  lemma KeepsLast(rules: RuleSet, m: Windows, now: int, n: nat, rule: Rule, resetsAt: int, blocked: bool)
    requires n < |rules|
    requires blocked ==> NamesLast(rules, m, now, n, rule, resetsAt)
    requires blocked && Exhausted(rules, m, now, n) ==> m[rules[n].window].EndsAt() <= resetsAt
    ensures blocked ==> NamesLast(rules, m, now, n + 1, rule, resetsAt)
  {
    if blocked {
      var i :| 0 <= i < n && LastOf(rules, m, now, n, i, rule, resetsAt);
      assert LastOf(rules, m, now, n + 1, i, rule, resetsAt);
    }
  }

  lemma NewLast(rules: RuleSet, m: Windows, now: int, n: nat, rule: Rule, resetsAt: int, blocked: bool)
    requires n < |rules| && Exhausted(rules, m, now, n)
    requires blocked <==> exists i | 0 <= i < n :: Exhausted(rules, m, now, i)
    requires blocked ==> NamesLast(rules, m, now, n, rule, resetsAt) && m[rules[n].window].EndsAt() > resetsAt
    ensures NamesLast(rules, m, now, n + 1, rules[n], m[rules[n].window].EndsAt())
  {
    assert LastOf(rules, m, now, n + 1, n, rules[n], m[rules[n].window].EndsAt());
  }

  // ---- What the decision means ----

  /**
   The decision on a valid set in plain times and sums. A rule refuses while less
   than its window has passed since the window started and the amount is spent; the
   refusal ends when the last such window has passed; an admission opens the rules
   whose window never started or has passed, and drops the windows no rule has.
   */
  lemma DecisionInPlainTerms(rules: RuleSet, m: Windows, now: int, d: Decision)
    requires WellFormed(rules) && Keyed(m) && IsDecision(rules, m, now, d)
    ensures d.Blocked? <==> exists i | 0 <= i < |rules| :: Refuses(rules[i], m, now)
    ensures d.Blocked? ==>
              && d.rule in rules && Refuses(d.rule, m, now)
              && d.resetsAt - m[d.rule.window].startedAt == d.rule.window
              && d.wait == d.resetsAt - now
              && forall i | 0 <= i < |rules| && Refuses(rules[i], m, now) ::
                   m[rules[i].window].startedAt + rules[i].window <= d.resetsAt
    ensures d.Admitted? ==> forall r ::
              r in d.open <==> r in rules && !IsRunning(r.window, m, now)
    ensures forall l :: l in d.orphans <==> l in m && forall i | 0 <= i < |rules| :: rules[i].window != l
  {
    forall i | 0 <= i < |rules|
      ensures Exhausted(rules, m, now, i) <==> Refuses(rules[i], m, now)
      ensures Holds(rules, m, now, i) <==> IsRunning(rules[i].window, m, now)
    {
      RuleInPlainTerms(rules, m, now, i);
    }
    if d.Blocked? {
      var i :| 0 <= i < |rules| && LastOf(rules, m, now, |rules|, i, d.rule, d.resetsAt);
    } else {
      forall r ensures r in d.open <==> r in rules && !IsRunning(r.window, m, now) {
        if r in rules {
          var i :| 0 <= i < |rules| && rules[i] == r;
          RuleInPlainTerms(rules, m, now, i);
        }
      }
    }
    assert forall l :: Named(rules, |rules|, l) <==> !(forall i | 0 <= i < |rules| :: rules[i].window != l);
  }

  lemma RuleInPlainTerms(rules: RuleSet, m: Windows, now: int, i: nat)
    requires WellFormed(rules) && Keyed(m) && i < |rules|
    ensures Holds(rules, m, now, i) <==> IsRunning(rules[i].window, m, now)
    ensures Exhausted(rules, m, now, i) <==> Refuses(rules[i], m, now)
    ensures forall j | 0 <= j < |rules| && rules[j].window == rules[i].window :: j == i
  {
    assert GoodRule(rules, i);
    forall j | 0 <= j < |rules| && rules[j].window == rules[i].window ensures j == i {
      assert GoodRule(rules, j);
    }
  }

  /** A window started less than its length ago. */
  predicate IsRunning(length: int, m: Windows, now: int) {
    length in m && now - m[length].startedAt < length
  }

  /** The rule's window started less than its length ago and its amount is spent. */
  predicate Refuses(r: Rule, m: Windows, now: int) {
    IsRunning(r.window, m, now) && m[r.window].spentUSD >= r.amountUSD
  }

  /** The promises leave no choice: any two decisions over the same inputs are equal. */
  lemma DecisionIsUnique(rules: RuleSet, m: Windows, now: int, d: Decision, e: Decision)
    requires IsDecision(rules, m, now, d) && IsDecision(rules, m, now, e)
    ensures d == e
  {
    Sorting.AscendingIsUnique(d.orphans, e.orphans);
    if d.Blocked? {
      var i :| 0 <= i < |rules| && LastOf(rules, m, now, |rules|, i, d.rule, d.resetsAt);
      var j :| 0 <= j < |rules| && LastOf(rules, m, now, |rules|, j, e.rule, e.resetsAt);
      assert i == j;
    }
  }

  /**
   The reset time is the exact end of the refusal: with the same rows, every instant before
   it is blocked and none from it on.
   */
  lemma ResetIsEarliestAdmission(rules: RuleSet, m: Windows, now: int, d: Decision, t: int)
    requires IsDecision(rules, m, now, d) && d.Blocked?
    ensures now < d.resetsAt
    ensures Blocks(rules, m, t) <==> t < d.resetsAt
  {
    var i :| 0 <= i < |rules| && LastOf(rules, m, now, |rules|, i, d.rule, d.resetsAt);
    if t < d.resetsAt {
      assert Exhausted(rules, m, t, i);
    } else {
      assert forall j | 0 <= j < |rules| :: Exhausted(rules, m, t, j) ==> Exhausted(rules, m, now, j);
    }
  }

  /** Time alone never turns an admission into a refusal. */
  lemma AdmissionLasts(rules: RuleSet, m: Windows, now: int, t: int)
    requires !Blocks(rules, m, now) && now <= t
    ensures !Blocks(rules, m, t)
  {
    assert forall j | 0 <= j < |rules| :: Exhausted(rules, m, t, j) ==> Exhausted(rules, m, now, j);
  }

  /** The Retry-After header of a refusal: the wait in seconds, rounded up, at least one. */
  function RetryAfter(wait: int): int {
    var seconds := -((-wait) / SECOND);
    if seconds > 1 then seconds else 1
  }

  /** A client that waits the seconds Retry-After names is admitted; one second less and it may still be refused. */
  lemma RetryAfterIsExact(rules: RuleSet, m: Windows, now: int, d: Decision)
    requires IsDecision(rules, m, now, d) && d.Blocked?
    ensures !Blocks(rules, m, now + RetryAfter(d.wait) * 1_000_000_000)
    ensures Blocks(rules, m, now + (RetryAfter(d.wait) - 1) * 1_000_000_000)
  {
    ResetIsEarliestAdmission(rules, m, now, d, now + RetryAfter(d.wait) * 1_000_000_000);
    ResetIsEarliestAdmission(rules, m, now, d, now + (RetryAfter(d.wait) - 1) * 1_000_000_000);
  }

  // ---- The cabinet's view ----

  /** One rule and its live window; startedAt and resetsAt are absent when none is live. */
  datatype WindowState = WindowState(rule: Rule, live: bool, startedAt: int, resetsAt: int, spentUSD: real,
      exhausted: bool)

  const PERCENT_EPSILON: real := 0.000000001

  /**
   The share of the rule's amount spent, in whole percent: 100 exactly when exhausted, else
   rounded down and at most 99.
   */
  function SpentPercent(s: WindowState): (p: int)
    requires s.rule.amountUSD > 0.0
    ensures p == 100 <==> s.exhausted
    ensures 0 <= p <= 100
    ensures !s.exhausted && 0 < p ==> p as real <= s.spentUSD / s.rule.amountUSD * 100.0 + 0.000000001
    ensures p < 99 ==> s.spentUSD / s.rule.amountUSD * 100.0 + 0.000000001 < (p + 1) as real
  {
    if s.exhausted then 100
    else
      var share := (s.spentUSD / s.rule.amountUSD * 100.0 + PERCENT_EPSILON).Floor;
      var least := if share > 0 then share else 0;
      if least < 99 then least else 99
  }

  function RulesOf(states: seq<WindowState>): (rules: RuleSet)
    ensures |rules| == |states|
    ensures forall i | 0 <= i < |states| :: rules[i] == states[i].rule
  {
    if states == [] then [] else RulesOf(states[..|states| - 1]) + [states[|states| - 1].rule]
  }

  ghost predicate ShowsWindow(s: WindowState, m: Windows, now: int) {
    && (s.live <==> s.rule.window in m && m[s.rule.window].LiveAt(now))
    && (s.live ==>
          var w := m[s.rule.window];
          s.startedAt == w.startedAt && s.resetsAt == w.EndsAt() && s.spentUSD == w.spentUSD)
    && (!s.live ==> s.startedAt == 0 && s.resetsAt == 0 && s.spentUSD == 0.0)
    && (s.exhausted <==> s.live && s.spentUSD >= s.rule.amountUSD)
  }

  /** The states show each rule of the set once, shortest window first, with its live window. */
  ghost predicate AreStates(rules: RuleSet, m: Windows, now: int, states: seq<WindowState>) {
    && multiset(RulesOf(states)) == multiset(rules)
    && (forall i, j | 0 <= i < j < |states| :: states[i].rule.window <= states[j].rule.window)
    && (forall i | 0 <= i < |states| :: ShowsWindow(states[i], m, now))
  }

  /** What a state shows, in plain times. */
  lemma ShownInPlainTerms(s: WindowState, m: Windows, now: int)
    requires Keyed(m) && ShowsWindow(s, m, now)
    ensures var l := s.rule.window;
            && (s.live <==> l in m && now - m[l].startedAt < l)
            && (s.live ==>
                  s.resetsAt - s.startedAt == l && s.startedAt == m[l].startedAt && s.spentUSD == m[l].spentUSD)
            && (s.exhausted <==> Refuses(s.rule, m, now))
  {
  }

  /** What one rule shows. */
  function StateOf(r: Rule, m: Windows, now: int): (s: WindowState)
    ensures s.rule == r && ShowsWindow(s, m, now)
  {
    if r.window in m && m[r.window].LiveAt(now) then
      var w := m[r.window];
      WindowState(r, true, w.startedAt, w.EndsAt(), w.spentUSD, w.spentUSD >= r.amountUSD)
    else WindowState(r, false, 0, 0, 0.0, false)
  }

  ghost predicate ShowsRules(out: seq<WindowState>, ordered: RuleSet, m: Windows, now: int) {
    |out| <= |ordered| && forall i | 0 <= i < |out| :: out[i] == StateOf(ordered[i], m, now)
  }

  method States(rules: RuleSet, rows: seq<Window>, now: int) returns (out: seq<WindowState>)
    ensures AreStates(rules, Stored(rows), now, out)
  {
    var stored := Stored(rows);
    var ordered := Sorting.Sort(rules, (a: Rule, b: Rule) => a.window <= b.window);
    out := [];
    for i := 0 to |ordered|
      invariant |out| == i && ShowsRules(out, ordered, stored, now)
    {
      var r := ordered[i];
      var state := WindowState(r, false, 0, 0, 0.0, false);
      if r.window in stored && stored[r.window].LiveAt(now) {
        var w := stored[r.window];
        state := WindowState(r, true, w.startedAt, w.EndsAt(), w.spentUSD, w.spentUSD >= r.amountUSD);
      }
      out := out + [state];
    }
    ShownInOrder(rules, ordered, stored, now, out);
  }

  lemma ShownInOrder(rules: RuleSet, ordered: RuleSet, m: Windows, now: int, out: seq<WindowState>)
    requires multiset(ordered) == multiset(rules) && |out| == |ordered| && ShowsRules(out, ordered, m, now)
    requires forall i, j | 0 <= i < j < |ordered| :: ordered[i].window <= ordered[j].window
    ensures AreStates(rules, m, now, out)
  {
    assert RulesOf(out) == ordered;
  }

  /**
   Refusal, an exhausted state and a state reading 100 percent are one condition, for any set
   that passed validation.
   */
  lemma BlockedIsVisible(rules: RuleSet, m: Windows, now: int, states: seq<WindowState>)
    requires WellFormed(rules) && AreStates(rules, m, now, states)
    ensures forall s | s in states :: s.rule in rules && s.rule.amountUSD > 0.0
    ensures Blocks(rules, m, now) <==> exists s | s in states :: s.exhausted
    ensures Blocks(rules, m, now) <==> exists s | s in states :: SpentPercent(s) == 100
  {
    Sorting.PermutationFacts(RulesOf(states), rules);
    forall s | s in states ensures s.rule in rules && s.rule.amountUSD > 0.0 {
      var i :| 0 <= i < |states| && states[i] == s;
      assert RulesOf(states)[i] in rules;
      var k :| 0 <= k < |rules| && rules[k] == s.rule;
      assert GoodRule(rules, k);
    }
    if Blocks(rules, m, now) {
      var i :| 0 <= i < |rules| && Exhausted(rules, m, now, i);
      assert rules[i] in RulesOf(states);
      var k :| 0 <= k < |states| && RulesOf(states)[k] == rules[i];
      assert ShowsWindow(states[k], m, now);
      assert states[k].exhausted && SpentPercent(states[k]) == 100;
      assert states[k] in states;
    }
    forall s | s in states && s.exhausted ensures Blocks(rules, m, now) {
      var i :| 0 <= i < |states| && states[i] == s;
      assert ShowsWindow(states[i], m, now);
      var k :| 0 <= k < |rules| && rules[k] == s.rule;
      assert GoodRule(rules, k);
      assert Exhausted(rules, m, now, k);
    }
  }

  // ---- Helpers ----

  /** Collects a set in whatever order it is visited, then sorts it. */
  method SortedKeys(keys: set<int>) returns (s: seq<int>)
    ensures Sorting.Ascending(s)
    ensures forall l :: l in s <==> l in keys
  {
    s := [];
    var left := keys;
    while left != {}
      invariant left <= keys
      invariant forall l :: l in s <==> l in keys && l !in left
      invariant forall i, j | 0 <= i < j < |s| :: s[i] != s[j]
    {
      var k := Sorting.Take(left);
      s := s + [k];
      left := left - {k};
    }
    ghost var collected := s;
    s := Sorting.Sort(s, (x: int, y: int) => x <= y);
    Sorting.PermutationFacts(s, collected);
    Sorting.DistinctPermutation(collected, s);
  }
}
