/**
 The overdraft bound without marks on readings. Requests read and decide as they
 please; what is counted is what the run goes on to do with them. Every such run is
 a marked run of the protocol, marked by looking ahead, and so keeps the bound.
 */
module SoftLimitLookahead {
  import opened Limits
  import opened SpendWindows
  import opened SoftLimit

  /** A step of the protocol in which readings and decisions are not restricted; every reading is written unmarked. */
  ghost predicate PlainStep(cfg: Config, s: State, e: Event, t: State) {
    match e
    case ReadRows(_) =>
      t == s.(requests := s.requests + [Read(s.rows, false)])
    case DecideNow(i, d) =>
      && i < |s.requests| && s.requests[i].Read?
      && IsDecision(cfg.rules, s.requests[i].snapshot, s.now, d)
      && t == s.(requests := s.requests[i := AfterDecision(cfg, d, s.now)])
    case _ => Step(cfg, s, e, t)
  }

  ghost predicate PlainRun(cfg: Config, states: seq<State>, events: seq<Event>) {
    && |states| == |events| + 1
    && Init(states[0])
    && forall n | 0 <= n < |events| :: PlainStep(cfg, states[n], events[n], states[n + 1])
  }

  /** The run decides to admit request i. */
  predicate Admits(events: seq<Event>, i: nat) {
    exists m | 0 <= m < |events| :: AdmitsAt(events[m], i)
  }

  predicate AdmitsAt(e: Event, i: nat) { e.DecideNow? && e.i == i && e.d.Admitted? }

  /** How many of the first n requests are admitted and not charged in full, or have read and go on to be admitted. */
  function Counted(events: seq<Event>, requests: seq<Phase>, n: nat): nat
    requires n <= |requests|
  {
    if n == 0 then 0
    else
      var p := requests[n - 1];
      Counted(events, requests, n - 1) + if InFlight(p) || (p.Read? && Admits(events, n - 1)) then 1 else 0
  }

  /** Never more than k requests count. */
  ghost predicate AtMostK(cfg: Config, states: seq<State>, events: seq<Event>) {
    forall n | 0 <= n < |states| :: Counted(events, states[n].requests, |states[n].requests|) <= cfg.k
  }

  // ---- Marking by looking ahead ----

  function Mark(events: seq<Event>, p: Phase, i: nat): Phase {
    if p.Read? then Read(p.snapshot, Admits(events, i)) else p
  }

  function MarkAll(events: seq<Event>, requests: seq<Phase>): (r: seq<Phase>)
    ensures |r| == |requests| && forall i | 0 <= i < |r| :: r[i] == Mark(events, requests[i], i)
  {
    seq(|requests|, i requires 0 <= i < |requests| => Mark(events, requests[i], i))
  }

  function Marked(events: seq<Event>, s: State): State {
    s.(requests := MarkAll(events, s.requests))
  }

  lemma {:induction false} ActiveAppend(requests: seq<Phase>, p: Phase)
    ensures Active(requests + [p]) == Active(requests) + if Counts(p) then 1 else 0
  {
    if requests != [] {
      assert (requests + [p])[1..] == requests[1..] + [p];
      ActiveAppend(requests[1..], p);
    }
  }

  /** What the marked protocol counts is what the run goes on to admit. */
  lemma {:induction false} ActiveIsCounted(events: seq<Event>, requests: seq<Phase>, n: nat)
    requires n <= |requests|
    ensures Active(MarkAll(events, requests)[..n]) == Counted(events, requests, n)
  {
    var marked := MarkAll(events, requests);
    if n > 0 {
      ActiveIsCounted(events, requests, n - 1);
      assert marked[..n] == marked[..n - 1] + [marked[n - 1]];
      ActiveAppend(marked[..n - 1], marked[n - 1]);
    }
  }

  lemma MarkUpdate(events: seq<Event>, requests: seq<Phase>, i: nat, p: Phase)
    requires i < |requests| && !p.Read?
    ensures MarkAll(events, requests[i := p]) == MarkAll(events, requests)[i := p]
  {
  }

  lemma MarkAppend(events: seq<Event>, requests: seq<Phase>, p: Phase)
    ensures MarkAll(events, requests + [p]) == MarkAll(events, requests) + [Mark(events, p, |requests|)]
  {
  }

  /** A plain step is a step of the marked protocol between the marked states. */
  lemma MarkedStep(cfg: Config, events: seq<Event>, s: State, e: Event, t: State)
    requires PlainStep(cfg, s, e, t) && e in events
    requires Active(MarkAll(events, t.requests)) <= cfg.k
    ensures Next(cfg, Marked(events, s), Marked(events, t))
  {
    var u, v := Marked(events, s), Marked(events, t);
    match e
    case ReadRows(_) =>
      var admits := Admits(events, |s.requests|);
      MarkAppend(events, s.requests, Read(s.rows, false));
      ActiveAppend(u.requests, Read(s.rows, admits));
      assert Step(cfg, u, ReadRows(admits), v);
    case DecideNow(i, d) =>
      var m :| 0 <= m < |events| && events[m] == e;
      assert d.Admitted? ==> AdmitsAt(events[m], i);
      MarkUpdate(events, s.requests, i, AfterDecision(cfg, d, s.now));
      assert Step(cfg, u, e, v);
    case _ =>
      OtherStep(cfg, events, s, e, t);
      assert Step(cfg, u, e, v);
  }

  lemma OtherStep(cfg: Config, events: seq<Event>, s: State, e: Event, t: State)
    requires Step(cfg, s, e, t) && !e.ReadRows? && !e.DecideNow?
    ensures Step(cfg, Marked(events, s), e, Marked(events, t))
  {
    match e
    case WriteOpen(i) => MarkUpdate(events, s.requests, i, Spending(cfg.cost));
    case FailOpen(i, _) => MarkUpdate(events, s.requests, i, Done);
    case Charge(i, amount, last) =>
      MarkUpdate(events, s.requests, i, if last then Done else Spending(s.requests[i].left - amount));
    case Abandon(i) => MarkUpdate(events, s.requests, i, Done);
    case _ =>
  }

  /** Every run in which at most k requests count has a marking that is a run of the marked protocol. */
  lemma EveryRunCanBeMarked(cfg: Config, states: seq<State>, events: seq<Event>) returns (marked: seq<State>)
    requires PlainRun(cfg, states, events) && AtMostK(cfg, states, events)
    ensures Run(cfg, marked) && |marked| == |states|
    ensures forall n | 0 <= n < |states| :: marked[n] == Marked(events, states[n])
  {
    marked := seq(|states|, n requires 0 <= n < |states| => Marked(events, states[n]));
    forall n | 0 <= n < |marked| - 1 ensures Next(cfg, marked[n], marked[n + 1]) {
      var requests := states[n + 1].requests;
      ActiveIsCounted(events, requests, |requests|);
      assert MarkAll(events, requests)[..|requests|] == MarkAll(events, requests);
      assert PlainStep(cfg, states[n], events[n], states[n + 1]);
      MarkedStep(cfg, events, states[n], events[n], states[n + 1]);
    }
  }

  /**
   The overdraft bound of every run, k counting the requests admitted and uncharged and those
   that have read and go on to be admitted.
   */
  lemma UnmarkedBound(cfg: Config, states: seq<State>, events: seq<Event>, n: nat)
    requires ValidConfig(cfg) && PlainRun(cfg, states, events) && AtMostK(cfg, states, events) && n < |states|
    ensures WithinBound(cfg, states[n])
  {
    var marked := EveryRunCanBeMarked(cfg, states, events);
    SoftLimitBound(cfg, marked, n);
    assert marked[n].rows == states[n].rows && marked[n].now == states[n].now;
  }
}
