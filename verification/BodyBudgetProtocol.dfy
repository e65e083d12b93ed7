/**
 Many requests on one body budget at once. Each of a charge's operations takes
 two steps with anything in between: grow reserves the owner's share, then the
 semaphore grants the bytes or the wait ends; giving back releases the
 semaphore, then the share.
 */
module BodyBudgetProtocol {
  import opened BodyBudget

  datatype Phase =
    | Idle
    | Waiting(amount: int)    // the share holds amount more than the semaphore has granted
    | Returning(surplus: int) // the semaphore has surplus back, the share still counts it

  /** One request's charge: acquired bytes of the semaphore, and what its owner's share counts for it. */
  datatype Charge = Charge(owner: Owner, share: int, acquired: int, phase: Phase) {
    function Counted(): int {
      match phase
      case Idle => acquired
      case Waiting(amount) => acquired + amount
      case Returning(surplus) => acquired + surplus
    }

    predicate WellFormed() {
      && 0 <= share && 0 <= acquired
      && match phase
         case Idle => true
         case Waiting(amount) => 0 <= amount
         case Returning(surplus) => 0 < surplus
    }
  }

  datatype State = State(size: int, used: int, held: map<Owner, int>, charges: seq<Charge>)

  datatype Event =
    | Arrive(owner: Owner, most: int)
    | Refuse(i: nat, amount: int)
    | Reserve(i: nat, amount: int)
    | Acquire(i: nat)
    | TimeOut(i: nat)
    | GiveBack(i: nat, keep: int)
    | Unshare(i: nat)

  predicate Init(s: State) {
    0 <= s.size && s.used == 0 && s.held == map[] && s.charges == []
  }

  predicate Enabled(s: State, e: Event) {
    match e
    case Arrive(_, most) => 0 <= most
    case Refuse(i, amount) =>
      i < |s.charges| && s.charges[i].phase.Idle? && 0 <= amount
      && Held(s.held, s.charges[i].owner) + amount > s.charges[i].share
    case Reserve(i, amount) =>
      i < |s.charges| && s.charges[i].phase.Idle? && 0 <= amount
      && Held(s.held, s.charges[i].owner) + amount <= s.charges[i].share
    case Acquire(i) =>
      i < |s.charges| && s.charges[i].phase.Waiting? && s.used + s.charges[i].phase.amount <= s.size
    case TimeOut(i) => i < |s.charges| && s.charges[i].phase.Waiting?
    case GiveBack(i, keep) =>
      i < |s.charges| && s.charges[i].phase.Idle? && 0 <= keep < s.charges[i].acquired
    case Unshare(i) => i < |s.charges| && s.charges[i].phase.Returning?
  }

  function Apply(s: State, e: Event): State
    requires Enabled(s, e)
  {
    match e
    case Arrive(owner, most) =>
      s.(charges := s.charges + [Charge(owner, ShareOf(s.size, most), 0, Idle)])
    case Refuse(_, _) => s
    case Reserve(i, amount) =>
      s.(held := Reserved(s.held, s.charges[i].owner, amount),
         charges := s.charges[i := s.charges[i].(phase := Waiting(amount))])
    case Acquire(i) =>
      var c := s.charges[i];
      s.(used := s.used + c.phase.amount,
         charges := s.charges[i := c.(acquired := c.acquired + c.phase.amount, phase := Idle)])
    case TimeOut(i) =>
      var c := s.charges[i];
      s.(held := Unshared(s.held, c.owner, c.phase.amount), charges := s.charges[i := c.(phase := Idle)])
    case GiveBack(i, keep) =>
      var c := s.charges[i];
      s.(used := s.used - (c.acquired - keep),
         charges := s.charges[i := c.(acquired := keep, phase := Returning(c.acquired - keep))])
    case Unshare(i) =>
      var c := s.charges[i];
      s.(held := Unshared(s.held, c.owner, c.phase.surplus), charges := s.charges[i := c.(phase := Idle)])
  }

  predicate Legal(s: State, run: seq<Event>)
    decreases |run|
  {
    run == [] || (Enabled(s, run[0]) && Legal(Apply(s, run[0]), run[1..]))
  }

  function After(s: State, run: seq<Event>): State
    requires Legal(s, run)
    decreases |run|
  {
    if run == [] then s else After(Apply(s, run[0]), run[1..])
  }

  // ---- Sums over charges ----

  function Acquired(cs: seq<Charge>): int {
    if cs == [] then 0 else Acquired(cs[1..]) + cs[0].acquired
  }

  /** What the owner's charges created with a share of at most bound count. */
  function Within(cs: seq<Charge>, o: Owner, bound: int): int {
    if cs == [] then 0
    else Within(cs[1..], o, bound) + (if cs[0].owner == o && cs[0].share <= bound then cs[0].Counted() else 0)
  }

  /** What all of the owner's charges count. */
  function CountedFor(cs: seq<Charge>, o: Owner): int {
    if cs == [] then 0 else CountedFor(cs[1..], o) + (if cs[0].owner == o then cs[0].Counted() else 0)
  }

  function Part(c: Charge, o: Owner, bound: int): int {
    if c.owner == o && c.share <= bound then c.Counted() else 0
  }

  lemma {:induction false} Updated(cs: seq<Charge>, i: nat, c: Charge, o: Owner, bound: int)
    requires i < |cs| && c.owner == cs[i].owner && c.share == cs[i].share
    ensures Acquired(cs[i := c]) == Acquired(cs) - cs[i].acquired + c.acquired
    ensures Within(cs[i := c], o, bound) == Within(cs, o, bound) - Part(cs[i], o, bound) + Part(c, o, bound)
    ensures CountedFor(cs[i := c], o) ==
            CountedFor(cs, o) + if c.owner == o then c.Counted() - cs[i].Counted() else 0
  {
    var after := cs[i := c];
    if i == 0 {
      assert after[1..] == cs[1..];
    } else {
      assert after[1..] == cs[1..][i - 1 := c];
      Updated(cs[1..], i - 1, c, o, bound);
    }
  }

  lemma {:induction false} Appended(cs: seq<Charge>, c: Charge, o: Owner, bound: int)
    ensures Acquired(cs + [c]) == Acquired(cs) + c.acquired
    ensures Within(cs + [c], o, bound) == Within(cs, o, bound) + Part(c, o, bound)
    ensures CountedFor(cs + [c], o) == CountedFor(cs, o) + if c.owner == o then c.Counted() else 0
  {
    if cs != [] {
      assert (cs + [c])[1..] == cs[1..] + [c];
      Appended(cs[1..], c, o, bound);
    }
  }

  lemma {:induction false} Bounds(cs: seq<Charge>, i: nat, o: Owner, bound: int)
    requires forall j | 0 <= j < |cs| :: cs[j].WellFormed()
    ensures 0 <= Within(cs, o, bound) <= CountedFor(cs, o)
    ensures 0 <= Acquired(cs)
    ensures i < |cs| ==> cs[i].acquired <= Acquired(cs)
    ensures i < |cs| && cs[i].owner == o ==> cs[i].Counted() <= CountedFor(cs, o)
  {
    if cs != [] {
      assert cs[0].WellFormed();
      Bounds(cs[1..], if i > 0 then i - 1 else 0, o, bound);
    }
  }

  // ---- The invariant ----

  /** The semaphore and every owner's entry are exactly the sums of the charges, and every share bound is kept. */
  ghost predicate Inv(s: State) {
    && 0 <= s.size
    && (forall i | 0 <= i < |s.charges| :: s.charges[i].WellFormed())
    && s.used == Acquired(s.charges) <= s.size
    && (forall o :: Held(s.held, o) == CountedFor(s.charges, o))
    && (forall o, bound | 0 <= bound :: Within(s.charges, o, bound) <= bound)
  }

  lemma UpdateKeeps(s: State, i: nat, c: Charge, used: int, held: map<Owner, int>)
    requires Inv(s) && i < |s.charges| && c.WellFormed()
    requires c.owner == s.charges[i].owner && c.share == s.charges[i].share
    requires used == s.used - s.charges[i].acquired + c.acquired && used <= s.size
    requires forall o ::
               Held(held, o) == Held(s.held, o) + if o == c.owner then c.Counted() - s.charges[i].Counted() else 0
    requires c.Counted() <= s.charges[i].Counted() || Held(held, c.owner) <= c.share
    ensures Inv(s.(used := used, held := held, charges := s.charges[i := c]))
  {
    var after := s.charges[i := c];
    forall o, bound | 0 <= bound
      ensures Within(after, o, bound) <= bound && Held(held, o) == CountedFor(after, o)
    {
      Updated(s.charges, i, c, o, bound);
      Bounds(after, i, o, bound);
      assert Within(s.charges, o, bound) <= bound;
    }
    forall o ensures Held(held, o) == CountedFor(after, o) {
      Updated(s.charges, i, c, o, 0);
    }
    Updated(s.charges, i, c, c.owner, 0);
  }

  lemma EventKeeps(s: State, e: Event)
    requires Inv(s) && Enabled(s, e)
    ensures Inv(Apply(s, e))
  {
    var t := Apply(s, e);
    match e
    case Arrive(owner, most) =>
      forall o, bound ensures Within(t.charges, o, bound) == Within(s.charges, o, bound)
                           && CountedFor(t.charges, o) == CountedFor(s.charges, o)
                           && Acquired(t.charges) == Acquired(s.charges)
      {
        Appended(s.charges, t.charges[|s.charges|], o, bound);
      }
      Appended(s.charges, t.charges[|s.charges|], owner, 0);
      forall o ensures Held(t.held, o) == CountedFor(t.charges, o) {
        Appended(s.charges, t.charges[|s.charges|], o, 0);
      }
    case Refuse(_, _) =>
    case Reserve(i, amount) =>
      UpdateKeeps(s, i, t.charges[i], t.used, t.held);
    case Acquire(i) =>
      UpdateKeeps(s, i, t.charges[i], t.used, t.held);
    case TimeOut(i) =>
      GivesBackExactly(s, i, s.charges[i].phase.amount);
      UpdateKeeps(s, i, t.charges[i], t.used, t.held);
    case GiveBack(i, keep) =>
      UpdateKeeps(s, i, t.charges[i], t.used, t.held);
    case Unshare(i) =>
      GivesBackExactly(s, i, s.charges[i].phase.surplus);
      UpdateKeeps(s, i, t.charges[i], t.used, t.held);
  }

  /** An owner's entry always covers what a charge gives back: unshare never rounds up to nothing. */
  lemma GivesBackExactly(s: State, i: nat, n: int)
    requires Inv(s) && i < |s.charges| && n <= s.charges[i].Counted()
    ensures Held(s.held, s.charges[i].owner) - n >= 0
    ensures Held(Unshared(s.held, s.charges[i].owner, n), s.charges[i].owner) == Held(s.held, s.charges[i].owner) - n
  {
    Bounds(s.charges, i, s.charges[i].owner, 0);
  }

  lemma {:induction false} RunKeeps(s: State, run: seq<Event>)
    requires Inv(s) && Legal(s, run)
    ensures Inv(After(s, run))
    decreases |run|
  {
    if run != [] {
      EventKeeps(s, run[0]);
      RunKeeps(Apply(s, run[0]), run[1..]);
    }
  }

  // ---- Main results ----

  /**
   In every interleaving: the semaphore's use is the sum of the charges and within
   the budget, each owner's entry is the sum of what their charges count, and the
   charges an owner made with a share of at most bound never count more than bound.
   */
  lemma BudgetIsConserved(s: State, run: seq<Event>)
    requires Init(s) && Legal(s, run)
    ensures var t := After(s, run);
            && 0 <= t.used == Acquired(t.charges) <= t.size == s.size
            && (forall o :: Held(t.held, o) == CountedFor(t.charges, o))
            && (forall o, bound | 0 <= bound :: Within(t.charges, o, bound) <= bound)
  {
    RunKeeps(s, run);
    SizeIsConstant(s, run);
    Bounds(After(s, run).charges, 0, 0, 0);
  }

  lemma {:induction false} SizeIsConstant(s: State, run: seq<Event>)
    requires Legal(s, run)
    ensures After(s, run).size == s.size
    decreases |run|
  {
    if run != [] { SizeIsConstant(Apply(s, run[0]), run[1..]); }
  }

  /** The semaphore is never given back more than it granted, which would panic. */
  lemma ReleaseNeverPanics(s: State, run: seq<Event>, i: nat, keep: int)
    requires Init(s) && Legal(s, run) && Enabled(After(s, run), GiveBack(i, keep))
    ensures After(s, run).charges[i].acquired - keep <= After(s, run).used
  {
    RunKeeps(s, run);
    Bounds(After(s, run).charges, i, 0, 0);
  }

  /** When every request has given back its charge, nothing is held anywhere. */
  lemma AllReleased(s: State, run: seq<Event>)
    requires Init(s) && Legal(s, run)
    requires forall c | c in After(s, run).charges :: c.phase.Idle? && c.acquired == 0
    ensures After(s, run).used == 0
    ensures forall o :: Held(After(s, run).held, o) == 0
  {
    RunKeeps(s, run);
    var t := After(s, run);
    forall o ensures Held(t.held, o) == 0 { NothingCounted(t.charges, o); }
    NothingCounted(t.charges, 0);
  }

  lemma {:induction false} NothingCounted(cs: seq<Charge>, o: Owner)
    requires forall c | c in cs :: c.phase.Idle? && c.acquired == 0
    ensures CountedFor(cs, o) == 0 && Acquired(cs) == 0
  {
    if cs != [] {
      assert cs[0] in cs;
      NothingCounted(cs[1..], o);
    }
  }

  /** An owner whose requests are each within a quarter of the budget never holds more than that quarter. */
  lemma OneOwnerLeavesTheRest(s: State, run: seq<Event>, o: Owner)
    requires Init(s) && Legal(s, run)
    requires forall c | c in After(s, run).charges && c.owner == o :: c.share <= s.size / 4
    ensures Held(After(s, run).held, o) <= s.size / 4
  {
    RunKeeps(s, run);
    AllWithin(After(s, run).charges, o, s.size / 4);
  }

  lemma {:induction false} AllWithin(cs: seq<Charge>, o: Owner, bound: int)
    requires forall c | c in cs && c.owner == o :: c.share <= bound
    ensures Within(cs, o, bound) == CountedFor(cs, o)
  {
    if cs != [] {
      assert cs[0] in cs;
      AllWithin(cs[1..], o, bound);
    }
  }

  /** A reservation for a request that is its owner's only charge is refused only past the request's own maximum. */
  lemma LoneChargeIsNotRefused(s: State, run: seq<Event>, i: nat, amount: int)
    requires Init(s) && Legal(s, run)
    requires var t := After(s, run);
             i < |t.charges| && t.charges[i].phase.Idle? && 0 <= amount && Alone(t, i)
    ensures var c := After(s, run).charges[i];
            Enabled(After(s, run), Refuse(i, amount)) <==> c.acquired + amount > c.share
  {
    RunKeeps(s, run);
    OnlyCharge(After(s, run).charges, i, After(s, run).charges[i].owner);
  }

  lemma {:induction false} OnlyCharge(cs: seq<Charge>, i: int, o: Owner)
    requires forall j | 0 <= j < |cs| && j != i :: cs[j].owner != o || cs[j].Counted() == 0
    ensures CountedFor(cs, o) == if 0 <= i < |cs| && cs[i].owner == o then cs[i].Counted() else 0
  {
    if cs != [] {
      forall j | 0 <= j < |cs[1..]| && j != i - 1 ensures cs[1..][j].owner != o || cs[1..][j].Counted() == 0 {
        assert cs[1..][j] == cs[j + 1];
      }
      OnlyCharge(cs[1..], i - 1, o);
    }
  }

  // ---- The charge's methods are the protocol's steps ----

  /** Charge i of the state, with the semaphore and the shares. */
  function AccountOf(s: State, i: nat): Account
    requires i < |s.charges|
  {
    Account(s.charges[i].acquired, s.used, s.held)
  }

  function GrowSteps(g: Grant, i: nat, amount: int): seq<Event> {
    match g
    case OverShare => [Refuse(i, amount)]
    case Granted => [Reserve(i, amount), Acquire(i)]
    case Busy => [Reserve(i, amount), TimeOut(i)]
  }

  /** A grow that nothing interrupts is a refusal, or a reservation then granted or timed out, with the same effect. */
  lemma GrowIsTwoSteps(s: State, i: nat, amount: int, g: Grant)
    requires i < |s.charges| && s.charges[i].phase.Idle? && 0 <= amount
    requires g.OverShare? <==> Held(s.held, s.charges[i].owner) + amount > s.charges[i].share
    requires g.Granted? ==> s.used + amount <= s.size
    ensures Legal(s, GrowSteps(g, i, amount))
    ensures var t := After(s, GrowSteps(g, i, amount));
            && |t.charges| == |s.charges| && t.charges[i].phase.Idle?
            && AccountOf(t, i) == Grown(g, s.charges[i].owner, amount, AccountOf(s, i))
  {
    if g.OverShare? {
      StepThen(s, Refuse(i, amount), s, []);
    } else {
      var u := Apply(s, Reserve(i, amount));
      var e := if g.Granted? then Acquire(i) else TimeOut(i);
      StepThen(u, e, Apply(u, e), []);
      StepThen(s, Reserve(i, amount), u, [e]);
      assert [Reserve(i, amount)] + [e] == GrowSteps(g, i, amount);
    }
  }

  /** Giving back is two steps, or none when there is nothing to give back. */
  lemma ShrinkIsTwoSteps(s: State, i: nat, keep: int)
    requires i < |s.charges| && s.charges[i].phase.Idle? && 0 <= keep
    ensures var run := if s.charges[i].acquired <= keep then [] else [GiveBack(i, keep), Unshare(i)];
            && Legal(s, run)
            && var t := After(s, run);
               && |t.charges| == |s.charges| && t.charges[i].phase.Idle?
               && AccountOf(t, i) == Shrunk(keep, s.charges[i].owner, AccountOf(s, i))
  {
    if s.charges[i].acquired > keep {
      var u := Apply(s, GiveBack(i, keep));
      StepThen(u, Unshare(i), Apply(u, Unshare(i)), []);
      StepThen(s, GiveBack(i, keep), u, [Unshare(i)]);
      assert [GiveBack(i, keep)] + [Unshare(i)] == [GiveBack(i, keep), Unshare(i)];
    }
  }

  // ---- Why a request is refused ----

  /** What each request of the run said it may be charged, in the order they arrive. */
  function Arrivals(run: seq<Event>): seq<int> {
    if run == [] then []
    else if run[0].Arrive? then [run[0].most] + Arrivals(run[1..])
    else Arrivals(run[1..])
  }

  lemma {:induction false} OneChargeEach(s: State, run: seq<Event>)
    requires Legal(s, run)
    ensures |After(s, run).charges| == |s.charges| + |Arrivals(run)|
    decreases |run|
  {
    if run != [] { OneChargeEach(Apply(s, run[0]), run[1..]); }
  }

  /** A charge keeps the share its arrival gave it. */
  lemma {:induction false} ShareFromArrival(s: State, run: seq<Event>, i: nat)
    requires Legal(s, run) && i < |After(s, run).charges| == |s.charges| + |Arrivals(run)|
    ensures After(s, run).charges[i].share ==
            if i < |s.charges| then s.charges[i].share else ShareOf(s.size, Arrivals(run)[i - |s.charges|])
    decreases |run|
  {
    if run != [] {
      OneChargeEach(Apply(s, run[0]), run[1..]);
      ShareFromArrival(Apply(s, run[0]), run[1..], i);
    }
  }

  lemma {:induction false} LegalPrefix(s: State, run: seq<Event>, n: nat)
    requires Legal(s, run) && n < |run|
    ensures Legal(s, run[..n]) && Enabled(After(s, run[..n]), run[n])
    decreases |run|
  {
    if n > 0 {
      LegalPrefix(Apply(s, run[0]), run[1..], n - 1);
      assert run[..n][1..] == run[1..][..n - 1];
    }
  }

  /** The owner of charge i has no other charge that counts anything. */
  ghost predicate Alone(s: State, i: nat)
    requires i < |s.charges|
  {
    forall j | 0 <= j < |s.charges| && j != i ::
      s.charges[j].owner != s.charges[i].owner || s.charges[j].Counted() == 0
  }

  /**
   No request is refused for its own size, in any interleaving: whenever a run
   refuses charge i, its owner holds something else, or the request asked for more
   than it said it would when it arrived.
   */
  lemma RefusalHasACause(s: State, run: seq<Event>, n: nat)
    requires Init(s) && Legal(s, run) && n < |run| && run[n].Refuse?
    ensures Legal(s, run[..n])
    ensures var before, i := After(s, run[..n]), run[n].i;
            && i < |before.charges| == |Arrivals(run[..n])|
            && (!Alone(before, i) || before.charges[i].acquired + run[n].amount > Arrivals(run[..n])[i])
  {
    LegalPrefix(s, run, n);
    OneChargeEach(s, run[..n]);
    var before, i := After(s, run[..n]), run[n].i;
    ShareFromArrival(s, run[..n], i);
    if Alone(before, i) {
      LoneChargeIsNotRefused(s, run[..n], i, run[n].amount);
    }
  }

  // ---- "An owner holding nothing has no entry" ----

  /**
   The claim fails for an empty body, whatever the budget: a charge of nothing
   leaves an entry, and the charge then has nothing to give back that would
   remove it.
   */
  lemma EmptyBodyLeavesEntry(s: State, o: Owner, most: int)
    requires Init(s) && 0 <= most
    ensures var run := [Arrive(o, most), Reserve(0, 0), Acquire(0)];
            && Legal(s, run)
            && After(s, run) == State(s.size, 0, map[o := 0], [Charge(o, ShareOf(s.size, most), 0, Idle)])
            && forall keep :: !Enabled(After(s, run), GiveBack(0, keep))
  {
    var run := [Arrive(o, most), Reserve(0, 0), Acquire(0)];
    var share := ShareOf(s.size, most);
    var s1 := State(s.size, 0, map[], [Charge(o, share, 0, Idle)]);
    assert Apply(s, run[0]) == s1;
    var s2 := State(s.size, 0, map[o := 0], [Charge(o, share, 0, Waiting(0))]);
    assert Enabled(s1, run[1]) && Apply(s1, run[1]) == s2;
    var s3 := State(s.size, 0, map[o := 0], [Charge(o, share, 0, Idle)]);
    assert Enabled(s2, run[2]) && Apply(s2, run[2]) == s3;
    StepThen(s2, run[2], s3, []);
    StepThen(s1, run[1], s2, [run[2]]);
    StepThen(s, run[0], s1, [run[1], run[2]]);
    assert [run[1]] + [run[2]] == [run[1], run[2]] && [run[0]] + [run[1], run[2]] == run;
  }

  lemma StepThen(s: State, e: Event, t: State, rest: seq<Event>)
    requires Enabled(s, e) && Apply(s, e) == t && Legal(t, rest)
    ensures Legal(s, [e] + rest) && After(s, [e] + rest) == After(t, rest)
  {
    assert ([e] + rest)[1..] == rest;
  }

  /** Nothing is reserved, for an owner without an entry. */
  predicate ReservesNothing(s: State, e: Event)
    requires Enabled(s, e)
  {
    e.Reserve? && e.amount == 0 && s.charges[e.i].owner !in s.held
  }

  predicate EverReservesNothing(s: State, run: seq<Event>)
    requires Legal(s, run)
    decreases |run|
  {
    run != [] && (ReservesNothing(s, run[0]) || EverReservesNothing(Apply(s, run[0]), run[1..]))
  }

  predicate AlwaysTidy(s: State, run: seq<Event>)
    requires Legal(s, run)
    decreases |run|
  {
    NoIdleEntry(s.held) && (run == [] || AlwaysTidy(Apply(s, run[0]), run[1..]))
  }

  lemma EventIsTidy(s: State, e: Event)
    requires Inv(s) && Enabled(s, e) && NoIdleEntry(s.held)
    ensures NoIdleEntry(Apply(s, e).held) <==> !ReservesNothing(s, e)
  {
    match e
    case Reserve(i, amount) => IdleEntries(s.held, s.charges[i].owner, amount);
    case TimeOut(i) => IdleEntries(s.held, s.charges[i].owner, s.charges[i].phase.amount);
    case Unshare(i) => IdleEntries(s.held, s.charges[i].owner, s.charges[i].phase.surplus);
    case _ =>
  }

  lemma {:induction false} TidyUntilNothingIsReserved(s: State, run: seq<Event>)
    requires Inv(s) && Legal(s, run) && NoIdleEntry(s.held)
    ensures AlwaysTidy(s, run) <==> !EverReservesNothing(s, run)
    decreases |run|
  {
    if run != [] {
      var t := Apply(s, run[0]);
      EventKeeps(s, run[0]);
      EventIsTidy(s, run[0]);
      if ReservesNothing(s, run[0]) {
        assert !NoIdleEntry(t.held);
      } else {
        TidyUntilNothingIsReserved(t, run[1..]);
      }
    }
  }

  /** The claim holds throughout a run exactly when no reservation of nothing is made for an owner without an entry. */
  lemma TidyExactly(s: State, run: seq<Event>)
    requires Init(s) && Legal(s, run)
    ensures AlwaysTidy(s, run) <==> !EverReservesNothing(s, run)
  {
    TidyUntilNothingIsReserved(s, run);
  }
}
