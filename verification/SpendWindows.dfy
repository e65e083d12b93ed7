/**
 The repository of spend-limit windows, by its contract: what each call makes of
 one account's stored windows, and the store that applies it.
 */
module SpendWindows {
  import opened Limits
  import Sorting

  type Account = nat

  // ---- One account's windows under each call ----

  /** Open: each window of open starts at at unless a row is stored that had not expired by at; then drop is deleted. */
  function Opened(m: Windows, open: set<int>, drop: set<int>, at: int): Windows {
    map l | l in (m.Keys + open) - drop ::
      if l in open && (l !in m || m[l].EndsAt() <= at) then Window(l, at, 0.0) else m[l]
  }

  /** AppendBatch: the cost is added to every stored window. */
  function Charged(m: Windows, cost: real): Windows {
    map l | l in m :: m[l].(spentUSD := m[l].spentUSD + cost)
  }

  function Removed(m: Windows, lengths: set<int>): Windows {
    m - lengths
  }

  function Restricted(m: Windows, lengths: set<int>): Windows {
    map l | l in m && l in lengths :: m[l]
  }

  function RuleLengths(rules: seq<Rule>): set<int> {
    set r | r in rules :: r.window
  }

  function Elements(s: seq<int>): set<int> {
    set l | l in s
  }

  /** What an admitted decision writes. */
  function Applied(m: Windows, d: Decision, at: int): Windows
    requires d.Admitted?
  {
    Opened(m, RuleLengths(d.open), Elements(d.orphans), at)
  }

  /**
   Applying an admission settles the account: its windows are exactly the set's,
   and deciding again at the same instant neither refuses nor has anything to write.
   */
  lemma AdmissionSettles(rules: RuleSet, m: Windows, now: int, d: Decision)
    requires WellFormed(rules) && IsDecision(rules, m, now, d) && d.Admitted?
    ensures Applied(m, d, now).Keys == Lengths(rules)
    ensures IsDecision(rules, Applied(m, d, now), now, Admitted([], []))
  {
    var after := Applied(m, d, now);
    forall i | 0 <= i < |rules| ensures Holds(rules, after, now, i) && !Exhausted(rules, after, now, i) {
      AppliedRule(rules, m, now, d, i);
    }
    forall l | l in after ensures l in Lengths(rules) && Named(rules, |rules|, l) {
      AppliedLength(rules, m, now, d, l);
    }
    NothingDue(rules, after, now, |rules|);
  }

  lemma AppliedLength(rules: RuleSet, m: Windows, now: int, d: Decision, l: int)
    requires IsDecision(rules, m, now, d) && d.Admitted? && l in Applied(m, d, now)
    ensures l in Lengths(rules) && Named(rules, |rules|, l)
  {
    if l in RuleLengths(d.open) {
      var r :| r in d.open && r.window == l;
    } else {
      assert l in m && l !in d.orphans;
    }
  }

  lemma AppliedRule(rules: RuleSet, m: Windows, now: int, d: Decision, i: nat)
    requires WellFormed(rules) && IsDecision(rules, m, now, d) && d.Admitted? && i < |rules|
    ensures Holds(rules, Applied(m, d, now), now, i)
    ensures !Exhausted(rules, Applied(m, d, now), now, i)
  {
    assert GoodRule(rules, i);
    var l := rules[i].window;
    assert Named(rules, |rules|, l);
    if Holds(rules, m, now, i) {
      assert !Exhausted(rules, m, now, i);
      forall j | 0 <= j < |rules| && rules[j].window == l ensures j == i {
        assert GoodRule(rules, j);
      }
      assert l !in RuleLengths(d.open);
    } else {
      assert rules[i] in d.open;
    }
  }

  lemma {:induction false} NothingDue(rules: RuleSet, m: Windows, now: int, n: nat)
    requires n <= |rules|
    requires forall i | 0 <= i < |rules| :: Holds(rules, m, now, i)
    ensures Due(rules, m, now, n) == []
  {
    if n > 0 { NothingDue(rules, m, now, n - 1); }
  }

  /**
   What an admission leaves of each rule, in plain times: a window still running untouched,
   any other started now with nothing spent.
   */
  lemma AppliedInPlainTerms(rules: RuleSet, m: Windows, now: int, d: Decision, i: nat)
    requires WellFormed(rules) && Keyed(m) && IsDecision(rules, m, now, d) && d.Admitted? && i < |rules|
    ensures var l := rules[i].window;
            && l in Applied(m, d, now)
            && Applied(m, d, now)[l] ==
               if l in m && now - m[l].startedAt < l then m[l] else Window(l, now, 0.0)
  {
    var l := rules[i].window;
    AppliedRule(rules, m, now, d, i);
    if l in m && now - m[l].startedAt < l {
      assert m[l].LiveAt(now);
    } else {
      DecisionInPlainTerms(rules, m, now, d);
      assert rules[i] in d.open;
    }
  }

  /** Opening, in plain times, whatever the caller had read: a row still running is left alone. */
  lemma OpenedInPlainTerms(m: Windows, open: set<int>, drop: set<int>, at: int, l: int)
    requires Keyed(m)
    ensures var after := Opened(m, open, drop, at);
            && (l in after <==> (l in m || l in open) && l !in drop)
            && (l in after && l in m && (l !in open || at - m[l].startedAt < l) ==> after[l] == m[l])
            && (l in after && l in open && (l !in m || at - m[l].startedAt >= l) ==> after[l] == Window(l, at, 0.0))
  {
  }

  /** Charges add up on every stored window and change nothing else. */
  lemma ChargesAddUp(m: Windows, a: real, b: real)
    ensures Charged(Charged(m, a), b) == Charged(m, a + b)
    ensures forall l | l in m ::
              Charged(m, a)[l].spentUSD - m[l].spentUSD == a && Charged(m, a)[l].startedAt == m[l].startedAt
  {
  }

  /**
   Of two requests that both found windows to open, the second leaves alone what
   the first opened, as long as those windows are still live at its own instant:
   nothing charged in between is lost.
   */
  lemma SecondOpenLosesNothing(m: Windows, open: set<int>, drop: set<int>, at: int, cost: real, later: int)
    requires forall l | l in open && l !in drop :: Opened(m, open, drop, at)[l].LiveAt(later)
    ensures var between := Charged(Opened(m, open, drop, at), cost);
            Opened(between, open, drop, later) == between
  {
  }

  /**
   After a reset of a rule's window the next admission starts it afresh, with nothing spent,
   and that rule refuses nothing meanwhile.
   */
  lemma ResetStartsAfresh(rules: RuleSet, m: Windows, lengths: set<int>, l: int, now: int, d: Decision)
    requires WellFormed(rules) && l in Lengths(rules) && l in lengths
    requires IsDecision(rules, Removed(m, lengths), now, d)
    ensures d.Blocked? ==> d.rule.window !in lengths
    ensures d.Admitted? ==>
              l in Applied(Removed(m, lengths), d, now) &&
                  Applied(Removed(m, lengths), d, now)[l] == Window(l, now, 0.0)
  {
    var gone := Removed(m, lengths);
    var i :| 0 <= i < |rules| && rules[i].window == l;
    if d.Admitted? {
      assert !Holds(rules, gone, now, i);
      assert rules[i] in d.open;
      assert Named(rules, |rules|, l);
    } else {
      var k :| 0 <= k < |rules| && LastOf(rules, gone, now, |rules|, k, d.rule, d.resetsAt);
    }
  }

  /**
   Deleting the windows no rule has changes no decision: the same refusal or the same windows
   due, and nothing left to drop.
   */
  lemma DroppingKeepsDecision(rules: RuleSet, m: Windows, now: int, d: Decision)
    requires IsDecision(rules, m, now, d)
    ensures IsDecision(rules, Restricted(m, Lengths(rules)), now, d.(orphans := []))
  {
    var kept := Restricted(m, Lengths(rules));
    SameRows(rules, m);
    SameHolds(rules, m, kept, now, |rules|);
    if d.Blocked? {
      SameLast(rules, m, kept, now, d.rule, d.resetsAt);
    }
    forall l | l in kept ensures Named(rules, |rules|, l) {
      assert l in Lengths(rules);
    }
  }

  /** Every rule finds the same row in both. */
  ghost predicate SameForRules(rules: RuleSet, m: Windows, kept: Windows) {
    forall i | 0 <= i < |rules| ::
      (rules[i].window in kept <==> rules[i].window in m)
      && (rules[i].window in m ==> kept[rules[i].window] == m[rules[i].window])
  }

  lemma SameRows(rules: RuleSet, m: Windows)
    ensures SameForRules(rules, m, Restricted(m, Lengths(rules)))
  {
    assert forall i | 0 <= i < |rules| :: rules[i].window in Lengths(rules);
  }

  lemma SameLast(rules: RuleSet, m: Windows, kept: Windows, now: int, rule: Rule, resetsAt: int)
    requires SameForRules(rules, m, kept) && NamesLast(rules, m, now, |rules|, rule, resetsAt)
    ensures NamesLast(rules, kept, now, |rules|, rule, resetsAt)
  {
    var i :| 0 <= i < |rules| && LastOf(rules, m, now, |rules|, i, rule, resetsAt);
    assert LastOf(rules, kept, now, |rules|, i, rule, resetsAt);
  }

  lemma {:induction false} SameHolds(rules: RuleSet, m: Windows, kept: Windows, now: int, n: nat)
    requires n <= |rules| && SameForRules(rules, m, kept)
    ensures forall i | 0 <= i < |rules| :: Holds(rules, kept, now, i) <==> Holds(rules, m, now, i)
    ensures forall i | 0 <= i < |rules| :: Exhausted(rules, kept, now, i) <==> Exhausted(rules, m, now, i)
    ensures Due(rules, kept, now, n) == Due(rules, m, now, n)
  {
    if n > 0 { SameHolds(rules, m, kept, now, n - 1); }
  }

  // ---- The store ----

  /**
   Every account's windows. Whether a call works is its parameter; a failed one wrote
   nothing: each is one transaction.
   */
  class Store {
    var rows: map<Account, Windows>

    ghost predicate Valid()
      reads this
    {
      forall a | a in rows :: Keyed(rows[a])
    }

    function Of(a: Account): Windows
      reads this
    {
      if a in rows then rows[a] else map[]
    }

    constructor ()
      ensures Valid() && rows == map[]
    {
      rows := map[];
    }

    /** Windows lists the account's rows in some order. */
    method Windows(a: Account) returns (list: seq<Window>)
      requires Valid()
      ensures Stored(list) == Of(a)
    {
      list := [];
      var m := Of(a);
      var left := m.Keys;
      while left != {}
        invariant left <= m.Keys
        invariant Stored(list).Keys == m.Keys - left
        invariant forall l | l in Stored(list) :: Stored(list)[l] == m[l]
      {
        var l := Sorting.Take(left);
        ghost var before := list;
        list := list + [m[l]];
        assert list[..|list| - 1] == before;
        left := left - {l};
      }
    }

    method Open(a: Account, open: set<int>, drop: set<int>, at: int, works: bool)
      requires Valid()
      modifies this
      ensures Valid()
      ensures rows == if works then old(rows)[a := Opened(old(Of(a)), open, drop, at)] else old(rows)
    {
      if works { rows := rows[a := Opened(Of(a), open, drop, at)]; }
    }

    /** Reset deletes the windows of those lengths, or all of them when every is set. */
    method Reset(a: Account, every: bool, length: int, works: bool)
      requires Valid()
      modifies this
      ensures Valid()
      ensures rows == if works then old(rows)[a := if every then map[] else Removed(old(Of(a)), {length})]
          else old(rows)
    {
      if works { rows := rows[a := if every then map[] else Removed(Of(a), {length})]; }
    }

    /** DropInherited keeps, for every inheriting account, only the windows whose length is in keep. */
    method DropInherited(inheriting: set<Account>, keep: set<int>, works: bool)
      requires Valid()
      modifies this
      ensures Valid()
      ensures works ==> rows == map a | a in old(rows) ::
                                  if a in inheriting then Restricted(old(rows)[a], keep) else old(rows)[a]
      ensures !works ==> rows == old(rows)
    {
      if works {
        rows := map a | a in rows ::
          if a in inheriting then Restricted(rows[a], keep) else rows[a];
      }
    }
  }
}
