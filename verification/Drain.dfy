/** The shutdown drain: requests are counted in and out, and once it starts no more are admitted. */
module Drain {
  /** The channel a drain ends by closing; absent until the drain starts. */
  datatype Idle = NotStarted | Open | Closed

  datatype State = State(inFlight: int, idle: Idle)

  predicate Sound(s: State) {
    && 0 <= s.inFlight
    && (s.idle.Open? ==> s.inFlight > 0)
    && (s.idle.Closed? ==> s.inFlight == 0)
  }

  datatype Event = Enter | Leave | Stop

  function Next(s: State, e: Event): State {
    match e
    case Enter => if s.idle.NotStarted? then s.(inFlight := s.inFlight + 1) else s
    case Leave =>
      State(s.inFlight - 1, if s.inFlight == 1 && s.idle != NotStarted then Closed else s.idle)
    case Stop =>
      if s.idle.NotStarted? then s.(idle := if s.inFlight == 0 then Closed else Open) else s
  }

  /** The channel is closed in this step; closing it again would panic. */
  predicate Closes(s: State, e: Event) {
    (e.Leave? && s.inFlight == 1 && s.idle != NotStarted) || (e.Stop? && s.idle.NotStarted? && s.inFlight == 0)
  }

  class RequestDrain {
    var inFlight: int
    var idle: Idle

    ghost function View(): State
      reads this
    {
      State(inFlight, idle)
    }

    constructor ()
      ensures View() == State(0, NotStarted)
    {
      inFlight, idle := 0, NotStarted;
    }

    method Close()
      requires idle.Open?
      modifies this`idle
      ensures idle.Closed?
    {
      idle := Closed;
    }

    method EnterRequest() returns (admitted: bool)
      requires Sound(View())
      modifies this
      ensures Sound(View()) && View() == Next(old(View()), Enter) && admitted == old(idle.NotStarted?)
    {
      if idle != NotStarted { return false; }
      inFlight := inFlight + 1;
      return true;
    }

    /** Only an admitted request leaves. */
    method LeaveRequest()
      requires Sound(View()) && inFlight > 0
      modifies this
      ensures Sound(View()) && View() == Next(old(View()), Leave)
    {
      inFlight := inFlight - 1;
      if inFlight == 0 && idle != NotStarted { Close(); }
    }

    method StartDrain() returns (done: bool)
      requires Sound(View())
      modifies this
      ensures Sound(View()) && View() == Next(old(View()), Stop) && idle != NotStarted && done == idle.Closed?
    {
      if idle == NotStarted {
        idle := Open;
        if inFlight == 0 { Close(); }
      }
      done := idle.Closed?;
    }
  }

  // ---- Every interleaving ----

  function After(run: seq<Event>): State {
    if run == [] then State(0, NotStarted) else Next(After(run[..|run| - 1]), run[|run| - 1])
  }

  function Admitted(run: seq<Event>): nat {
    if run == [] then 0
    else
      var before := run[..|run| - 1];
      Admitted(before) + if run[|run| - 1].Enter? && After(before).idle.NotStarted? then 1 else 0
  }

  function Count(run: seq<Event>, e: Event): nat {
    if run == [] then 0 else Count(run[..|run| - 1], e) + if run[|run| - 1] == e then 1 else 0
  }

  function Closings(run: seq<Event>): nat {
    if run == [] then 0
    else Closings(run[..|run| - 1]) + if Closes(After(run[..|run| - 1]), run[|run| - 1]) then 1 else 0
  }

  /** Requests leave only after they were admitted. */
  predicate Legal(run: seq<Event>) {
    run == [] ||
    var before := run[..|run| - 1];
    Legal(before) && (run[|run| - 1].Leave? ==> Admitted(before) > Count(before, Leave))
  }

  /**
   In every interleaving the count is the requests admitted and not yet left, and
   the channel is closed exactly once, exactly when stopped with nothing in flight.
   */
  lemma {:induction false} DrainIsExact(run: seq<Event>)
    requires Legal(run)
    ensures Sound(After(run))
    ensures After(run).inFlight == Admitted(run) - Count(run, Leave)
    ensures After(run).idle.NotStarted? <==> Count(run, Stop) == 0
    ensures After(run).idle.Closed? <==> Count(run, Stop) > 0 && Admitted(run) == Count(run, Leave)
    ensures Closings(run) == if After(run).idle.Closed? then 1 else 0
  {
    if run != [] { DrainIsExact(run[..|run| - 1]); }
  }

  /**
   Nothing is admitted once stopped, so a started drain ends after as many more leaves as
   requests were in flight, whatever else is tried meanwhile.
   */
  lemma {:induction false} StartedDrainFinishes(run: seq<Event>, more: seq<Event>)
    requires Legal(run + more) && Count(run, Stop) > 0
    ensures Legal(run)
    ensures Admitted(run + more) == Admitted(run)
    ensures After(run + more).inFlight == After(run).inFlight - Count(more, Leave)
    ensures After(run + more).idle.Closed? <==> Count(more, Leave) == After(run).inFlight
    decreases |more|
  {
    if more == [] {
      assert run + more == run;
      DrainIsExact(run);
    } else {
      var before := more[..|more| - 1];
      assert (run + more)[..|run + more| - 1] == run + before;
      StartedDrainFinishes(run, before);
      DrainIsExact(run + before);
      DrainIsExact(run + more);
      CountAppend(run, more, Leave);
      CountAppend(run, before, Stop);
      DrainIsExact(run);
    }
  }

  lemma {:induction false} CountAppend(a: seq<Event>, b: seq<Event>, e: Event)
    ensures Count(a + b, e) == Count(a, e) + Count(b, e)
  {
    if b == [] {
      assert a + b == a;
    } else {
      assert (a + b)[..|a + b| - 1] == a + b[..|b| - 1];
      CountAppend(a, b[..|b| - 1], e);
    }
  }
}
