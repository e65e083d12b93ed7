/**
 Sign-in throttling: the attempts kept per address by the repository's atomic
 charge, the sign-in that spends one derivation on an admitted attempt, and the
 bound on derivations over every interleaving of sign-ins to one address.
 */
module Throttle {
  import opened Options
  import Text

  /** At most maxFailures attempts per window of lockFor. */
  datatype Limit = Limit(maxFailures: int, lockFor: int)

  predicate ValidLimit(l: Limit) { 1 <= l.maxFailures && 0 < l.lockFor }

  /** An address's attempts on record. */
  datatype Record = Record(failures: int, lockedUntil: Option<int>, last: int)

  predicate LockedAt(r: Record, now: int) {
    r.lockedUntil.Some? && r.lockedUntil.value > now
  }

  /** A lapsed lock, or a last attempt at least one window old. */
  predicate Stale(l: Limit, r: Record, now: int) {
    (r.lockedUntil.Some? && r.lockedUntil.value <= now) || r.last <= now - l.lockFor
  }

  function Started(l: Limit, now: int): Record {
    Record(1, if l.maxFailures <= 1 then Some(now + l.lockFor) else None, now)
  }

  /** The repository's Charge, one atomic statement: the record as it stands after the attempt. */
  function Charged(l: Limit, record: Option<Record>, now: int): Record {
    match record
    case None => Started(l, now)
    case Some(r) =>
      if LockedAt(r, now) then Record(r.failures + 1, r.lockedUntil, now)
      else if Stale(l, r, now) then Started(l, now)
      else Record(r.failures + 1, if r.failures + 1 >= l.maxFailures then Some(now + l.lockFor) else None, now)
  }

  predicate Admits(l: Limit, record: Option<Record>, now: int) {
    Charged(l, record, now).failures <= l.maxFailures
  }

  /** An attempt over the limit always leaves a lock that is still to lapse. */
  lemma OverLimitIsLocked(l: Limit, record: Option<Record>, now: int)
    requires ValidLimit(l) && !Admits(l, record, now)
    ensures LockedAt(Charged(l, record, now), now)
  {
  }

  /**
   A stale count starts over at one. The repository's contract says "with no lock";
   that holds exactly when the limit is more than one attempt.
   */
  lemma StaleStartsOver(l: Limit, r: Record, now: int)
    requires ValidLimit(l) && Stale(l, r, now) && !LockedAt(r, now)
    ensures Charged(l, Some(r), now).failures == 1
    ensures Charged(l, Some(r), now).lockedUntil.None? <==> l.maxFailures > 1
  {
  }

  // ---- One sign-in ----

  /** What the account lookup finds; ineligible stands for every account without a usable password. */
  datatype Account = LookupFails | Ineligible | Eligible(passwordMatches: bool)

  datatype SignInResult = LockedOut(until: int) | InvalidCredentials | SignedIn | Unavailable

  /** How a repository call fares: it works, fails without effect, or fails having taken effect. */
  datatype Fault = Works | FailsBefore | FailsAfter

  /**
   What fails during one sign-in: the check, the charge, getting a derivation slot, the
   reset, opening the session.
   */
  datatype Faults = Faults(check: bool, charge: Fault, slot: bool, reset: Fault, session: bool)

  predicate Locked(record: Option<Record>, now: int) {
    record.Some? && LockedAt(record.value, now)
  }

  /** The attempt is not locked out, its charge is admitted and answered, and it gets as far as the password. */
  predicate Derives(l: Limit, record: Option<Record>, checkedAt: int, chargedAt: int, account: Account, f: Faults) {
    && !f.check && !Locked(record, checkedAt)
    && f.charge.Works? && Admits(l, record, chargedAt)
    && !account.LookupFails? && !f.slot
  }

  class SignInService {
    const limit: Limit
    var attempts: map<string, Record>
    var derivations: nat
    var sessions: nat

    constructor (limit: Limit)
      requires ValidLimit(limit)
      ensures this.limit == limit && attempts == map[] && derivations == 0 && sessions == 0
    {
      this.limit, attempts, derivations, sessions := limit, map[], 0, 0;
    }

    /** The address's record; addresses are folded to lower case. */
    function RecordOf(email: string): Option<Record>
      reads this
    {
      var key := Text.ToLower(email);
      if key in attempts then Some(attempts[key]) else None
    }

    method Check(email: string, now: int, works: bool) returns (refusal: Option<SignInResult>)
      ensures refusal == Some(Unavailable) <==> !works
      ensures refusal.None? <==> works && !Locked(RecordOf(email), now)
      ensures refusal.Some? && works ==> refusal == Some(LockedOut(RecordOf(email).value.lockedUntil.value))
    {
      if !works { return Some(Unavailable); }
      var record := RecordOf(email);
      if record.Some? && LockedAt(record.value, now) {
        return Some(LockedOut(record.value.lockedUntil.value));
      }
      return None;
    }

    /** Charge counts the attempt; a failed call may have counted it. A refusal never ends before the lock does. */
    method Charge(email: string, now: int, fault: Fault) returns (refusal: Option<SignInResult>)
      modifies this`attempts
      ensures refusal == Some(Unavailable) <==> !fault.Works?
      ensures refusal.None? <==> fault.Works? && Admits(limit, old(RecordOf(email)), now)
      ensures refusal.Some? && fault.Works? ==>
                refusal.value.LockedOut? && RecordOf(email).Some?
                && refusal.value.until == RecordOf(email).value.lockedUntil.GetOr(now + limit.lockFor)
      ensures RecordOf(email) ==
              if fault.FailsBefore? then old(RecordOf(email)) else Some(Charged(limit, old(RecordOf(email)), now))
      ensures forall other | Text.ToLower(other) != Text.ToLower(email) :: RecordOf(other) == old(RecordOf(other))
    {
      var record := Charged(limit, RecordOf(email), now);
      if fault != FailsBefore {
        attempts := attempts[Text.ToLower(email) := record];
      }
      if !fault.Works? { return Some(Unavailable); }
      if record.failures <= limit.maxFailures { return None; }
      return Some(LockedOut(record.lockedUntil.GetOr(now + limit.lockFor)));
    }

    /** Reset forgets every attempt of the address; a failed call may have. */
    method Reset(email: string, fault: Fault)
      modifies this`attempts
      ensures RecordOf(email) == if fault.FailsBefore? then old(RecordOf(email)) else None
      ensures forall other | Text.ToLower(other) != Text.ToLower(email) :: RecordOf(other) == old(RecordOf(other))
    {
      if fault != FailsBefore {
        attempts := attempts - {Text.ToLower(email)};
      }
    }

    /**
     Every attempt that is not locked out is charged before anything is learned
     about the account; an admitted one costs one derivation whatever the account,
     and only a matching password clears the count.
     */
    method SignIn(email: string, checkedAt: int, chargedAt: int, account: Account, faults: Faults)
      returns (result: SignInResult)
      modifies this
      ensures var record := old(RecordOf(email));
              var derives := Derives(limit, record, checkedAt, chargedAt, account, faults);
              && derivations == old(derivations) + (if derives then 1 else 0)
              && (result.InvalidCredentials? <==> derives && account != Eligible(true))
              && (result.SignedIn? <==> derives && account == Eligible(true) && faults.reset.Works? && !faults.session)
              && (result.LockedOut? <==>
                    !faults.check && (Locked(record, checkedAt) ||
                        (faults.charge.Works? && !Admits(limit, record, chargedAt))))
              && RecordOf(email) ==
                 if faults.check || Locked(record, checkedAt) || faults.charge.FailsBefore? then record
                 else if derives && account == Eligible(true) && !faults.reset.FailsBefore? then None
                 else Some(Charged(limit, record, chargedAt))
      ensures result.LockedOut? ==>
                var record := old(RecordOf(email));
                result.until == if Locked(record, checkedAt) then record.value.lockedUntil.value
                                else Charged(limit, record, chargedAt).lockedUntil.GetOr(chargedAt + limit.lockFor)
      ensures sessions == old(sessions) + if result.SignedIn? then 1 else 0
      ensures forall other | Text.ToLower(other) != Text.ToLower(email) :: RecordOf(other) == old(RecordOf(other))
    {
      var refusal := Check(email, checkedAt, !faults.check);
      if refusal.Some? { return refusal.value; }
      refusal := Charge(email, chargedAt, faults.charge);
      if refusal.Some? { return refusal.value; }
      if account.LookupFails? || faults.slot { return Unavailable; }
      derivations := derivations + 1;
      if account != Eligible(true) { return InvalidCredentials; }
      Reset(email, faults.reset);
      if !faults.reset.Works? || faults.session { return Unavailable; }
      sessions := sessions + 1;
      return SignedIn;
    }
  }

  // ---- Every interleaving of sign-ins to one address ----

  /**
   What reaches the address's record, in the order the repository serialises it: a
   charge, whose answer may be lost with or without its effect; the one derivation
   of the attempt charged by event i; a clear.
   */
  datatype Event =
    | Charge(now: int)
    | LostCharge(now: int, counted: bool)
    | Derive(i: nat)
    | Clear(now: int)

  function RecordAfter(l: Limit, events: seq<Event>, n: nat): Option<Record>
    requires n <= |events|
  {
    if n == 0 then None
    else
      var record := RecordAfter(l, events, n - 1);
      match events[n - 1]
      case Charge(now) => Some(Charged(l, record, now))
      case LostCharge(now, counted) => if counted then Some(Charged(l, record, now)) else record
      case Derive(_) => record
      case Clear(_) => None
  }

  predicate AdmittedAt(l: Limit, events: seq<Event>, i: nat)
    requires i < |events|
  {
    events[i].Charge? && Admits(l, RecordAfter(l, events, i), events[i].now)
  }

  /** The admitted attempts among the first n events that have not made their derivation. */
  function Pending(l: Limit, events: seq<Event>, n: nat): (p: set<nat>)
    requires n <= |events|
    ensures forall i | i in p :: i < n && AdmittedAt(l, events, i)
  {
    if n == 0 then {}
    else
      var p := Pending(l, events, n - 1);
      if AdmittedAt(l, events, n - 1) then p + {n - 1}
      else if events[n - 1].Derive? then p - {events[n - 1].i}
      else p
  }

  predicate Timed(e: Event) { !e.Derive? }

  /**
   The clock does not go back in the order the events are serialised, and only admitted
   attempts derive, once each.
   */
  ghost predicate Run(l: Limit, events: seq<Event>) {
    && ValidLimit(l)
    && (forall i, j | 0 <= i < j < |events| && Timed(events[i]) && Timed(events[j]) :: events[i].now <= events[j].now)
    && (forall n | 0 <= n < |events| :: LegalDerive(l, events, n))
  }

  ghost predicate LegalDerive(l: Limit, events: seq<Event>, n: nat)
    requires n < |events|
  {
    events[n].Derive? ==> events[n].i in Pending(l, events, n)
  }

  predicate InWindow(l: Limit, s: int, t: int) { s <= t < s + l.lockFor }

  /** Event i is a charge in the window that starts at s, and admitted. */
  predicate Counts(l: Limit, events: seq<Event>, i: nat, s: int)
    requires i < |events|
  {
    AdmittedAt(l, events, i) && InWindow(l, s, events[i].now)
  }

  function Admissions(l: Limit, events: seq<Event>, n: nat, s: int): nat
    requires n <= |events|
  {
    if n == 0 then 0 else Admissions(l, events, n - 1, s) + if Counts(l, events, n - 1, s) then 1 else 0
  }

  /** The derivations, among the first n events, of attempts charged in the window. */
  function Derivations(l: Limit, events: seq<Event>, n: nat, s: int): nat
    requires Run(l, events) && n <= |events|
  {
    if n == 0 then 0
    else
      assert LegalDerive(l, events, n - 1);
      Derivations(l, events, n - 1, s) +
      if events[n - 1].Derive? && Counts(l, events, events[n - 1].i, s) then 1 else 0
  }

  /** Nothing cleared the address within the window. */
  ghost predicate NoClear(l: Limit, events: seq<Event>, s: int) {
    forall i | 0 <= i < |events| && events[i].Clear? :: !InWindow(l, s, events[i].now)
  }

  ghost predicate Consistent(l: Limit, record: Option<Record>) {
    record.Some? ==> 1 <= record.value.failures && (record.value.lockedUntil.Some? ==>
        record.value.failures >= l.maxFailures)
  }

  /**
   With c attempts of the window admitted so far: a record from before it has none, one from
   within it counts them all, and no lock set for them lapses inside it.
   */
  ghost predicate Accounted(l: Limit, record: Option<Record>, c: nat, s: int) {
    match record
    case None => c == 0
    case Some(r) =>
      if r.last < s then c == 0
      else c <= r.failures && (r.lockedUntil.Some? ==> r.lockedUntil.value >= s + l.lockFor || c == 0)
  }

  lemma ChargeIsAccounted(l: Limit, record: Option<Record>, c: nat, s: int, now: int)
    requires ValidLimit(l) && Consistent(l, record) && c <= l.maxFailures
    requires InWindow(l, s, now) ==> Accounted(l, record, c, s)
    requires now < s ==> c == 0
    ensures Consistent(l, Some(Charged(l, record, now)))
    ensures InWindow(l, s, now) ==>
              var d := if Admits(l, record, now) then c + 1 else c;
              d <= l.maxFailures && Accounted(l, Some(Charged(l, record, now)), d, s)
              && Accounted(l, Some(Charged(l, record, now)), c, s)
    ensures now < s ==> Charged(l, record, now).last < s
  {
  }

  /** All timed events among the first n come at or before t. */
  ghost predicate Before(events: seq<Event>, n: nat, t: int)
    requires n <= |events|
  {
    forall i | 0 <= i < n && Timed(events[i]) :: events[i].now <= t
  }

  lemma {:induction false} WindowInvariant(l: Limit, events: seq<Event>, n: nat, s: int)
    requires Run(l, events) && NoClear(l, events, s) && n <= |events|
    ensures Consistent(l, RecordAfter(l, events, n))
    ensures Admissions(l, events, n, s) <= l.maxFailures
    ensures Before(events, n, s + l.lockFor - 1) ==>
        Accounted(l, RecordAfter(l, events, n), Admissions(l, events, n, s), s)
    ensures Before(events, n, s - 1) ==> Admissions(l, events, n, s) == 0
  {
    if n > 0 {
      WindowInvariant(l, events, n - 1, s);
      var e, record, c := events[n - 1], RecordAfter(l, events, n - 1), Admissions(l, events, n - 1, s);
      if Timed(e) {
        assert Before(events, n - 1, e.now);
        assert e.now < s ==> Before(events, n - 1, s - 1);
        assert e.now < s + l.lockFor ==> Before(events, n - 1, s + l.lockFor - 1);
      }
      if e.Charge? || (e.LostCharge? && e.counted) {
        ChargeIsAccounted(l, record, c, s, e.now);
      }
    }
  }

  /** The pending attempts that count. */
  function Left(l: Limit, events: seq<Event>, n: nat, s: int): set<nat>
    requires n <= |events|
  {
    set i | i in Pending(l, events, n) && Counts(l, events, i, s)
  }

  lemma LeftChanges(l: Limit, events: seq<Event>, n: nat, s: int)
    requires n < |events| && LegalDerive(l, events, n)
    ensures Left(l, events, n + 1, s) ==
            if Counts(l, events, n, s) then Left(l, events, n, s) + {n}
            else if events[n].Derive? then Left(l, events, n, s) - {events[n].i}
            else Left(l, events, n, s)
  {
  }

  /** An event moves at most one attempt from left to derived. */
  lemma LeftCount(l: Limit, events: seq<Event>, n: nat, s: int)
    requires n < |events| && LegalDerive(l, events, n)
    ensures |Left(l, events, n + 1, s)| == |Left(l, events, n, s)|
            + (if Counts(l, events, n, s) then 1 else 0)
            - (if events[n].Derive? && Counts(l, events, events[n].i, s) then 1 else 0)
  {
    LeftChanges(l, events, n, s);
    assert n !in Left(l, events, n, s);
  }

  /** Each derivation uses up one admitted attempt. */
  lemma {:induction false} DerivationsAreAdmitted(l: Limit, events: seq<Event>, n: nat, s: int)
    requires Run(l, events) && n <= |events|
    ensures Derivations(l, events, n, s) + |Left(l, events, n, s)| == Admissions(l, events, n, s)
  {
    if n == 0 {
      assert Left(l, events, 0, s) == {};
    } else {
      DerivationsAreAdmitted(l, events, n - 1, s);
      assert LegalDerive(l, events, n - 1);
      LeftCount(l, events, n - 1, s);
    }
  }

  /**
   In any half-open window of lockFor in which nothing cleared the address, at
   most maxFailures of the attempts charged in it reach a derivation.
   */
  lemma WindowBound(l: Limit, events: seq<Event>, s: int)
    requires Run(l, events) && NoClear(l, events, s)
    ensures Derivations(l, events, |events|, s) <= Admissions(l, events, |events|, s) <= l.maxFailures
  {
    WindowInvariant(l, events, |events|, s);
    DerivationsAreAdmitted(l, events, |events|, s);
  }

  // ---- By the moment of derivation ----

  function DerivedSince(events: seq<Event>, m: nat, n: nat): nat
    requires m <= n <= |events|
  {
    if n == m then 0 else DerivedSince(events, m, n - 1) + if events[n - 1].Derive? then 1 else 0
  }

  function AdmittedSince(l: Limit, events: seq<Event>, m: nat, n: nat): nat
    requires m <= n <= |events|
  {
    if n == m then 0 else AdmittedSince(l, events, m, n - 1) + if AdmittedAt(l, events, n - 1) then 1 else 0
  }

  lemma {:induction false} PendingBalance(l: Limit, events: seq<Event>, m: nat, n: nat)
    requires Run(l, events) && m <= n <= |events|
    ensures |Pending(l, events, n)| + DerivedSince(events, m, n) == |Pending(l, events, m)| +
        AdmittedSince(l, events, m, n)
  {
    if n > m {
      PendingBalance(l, events, m, n - 1);
      assert LegalDerive(l, events, n - 1);
      assert n - 1 !in Pending(l, events, n - 1);
    }
  }

  /** The timed events from m up to n all fall in the window. */
  ghost predicate During(l: Limit, events: seq<Event>, m: nat, n: nat, s: int)
    requires m <= n <= |events|
  {
    forall i | m <= i < n && Timed(events[i]) :: InWindow(l, s, events[i].now)
  }

  lemma {:induction false} AdmittedDuring(l: Limit, events: seq<Event>, m: nat, n: nat, s: int)
    requires m <= n <= |events| && During(l, events, m, n, s)
    ensures AdmittedSince(l, events, m, n) <= Admissions(l, events, n, s)
  {
    if n > m { AdmittedDuring(l, events, m, n - 1, s); }
  }

  /**
   In any stretch of a run within such a window, the derivations made, whenever
   their attempts were charged, are at most maxFailures and the attempts that were
   still pending when it began.
   */
  lemma DerivationsInWindow(l: Limit, events: seq<Event>, m: nat, n: nat, s: int)
    requires Run(l, events) && NoClear(l, events, s) && m <= n <= |events| && During(l, events, m, n, s)
    ensures DerivedSince(events, m, n) <= |Pending(l, events, m)| + l.maxFailures
  {
    PendingBalance(l, events, m, n);
    AdmittedDuring(l, events, m, n, s);
    WindowInvariant(l, events, n, s);
  }

  // ---- In plain times ----

  /** A lock never outlasts one window from the last attempt. */
  lemma {:induction false} LockIsShort(l: Limit, events: seq<Event>, n: nat)
    requires Run(l, events) && n <= |events|
    ensures var r := RecordAfter(l, events, n);
            r.Some? ==>
              && (r.value.lockedUntil.Some? ==> r.value.lockedUntil.value <= r.value.last + l.lockFor)
              && exists m | 0 <= m < n :: Timed(events[m]) && events[m].now == r.value.last
  {
    if n > 0 { LockIsShort(l, events, n - 1); }
  }

  /** The last attempt on record, if any, is at least one window before t. */
  predicate OldRecord(l: Limit, record: Option<Record>, t: int) {
    record.Some? ==> record.value.last + l.lockFor <= t
  }

  /**
   The limit is reached exactly, and old attempts do not count towards it: of a burst
   of charges within one window of its first, on an address whose last attempt is at
   least a window old, precisely the first maxFailures are admitted. The lock is set
   by the last of them, for one window from it.
   */
  lemma {:induction false} BurstIsCutExactly(l: Limit, events: seq<Event>, m: nat, n: nat)
    requires Run(l, events) && m <= n < |events|
    requires forall i | m <= i <= n :: events[i].Charge?
    requires OldRecord(l, RecordAfter(l, events, m), events[m].now)
    requires forall i | m <= i <= n :: events[i].now < events[m].now + l.lockFor
    ensures AdmittedAt(l, events, n) <==> n - m < l.maxFailures
    ensures RecordAfter(l, events, n + 1) ==
            Some(Record(n - m + 1,
                        if n - m + 1 >= l.maxFailures then Some(events[m + l.maxFailures - 1].now + l.lockFor)
                            else None,
                        events[n].now))
  {
    if n > m {
      BurstIsCutExactly(l, events, m, n - 1);
    } else {
      LockIsShort(l, events, m);
    }
  }

  /**
   A lock holds exactly until it lapses: whatever is tried meanwhile is refused and
   does not move it, and the first attempt from then on is admitted.
   */
  lemma {:induction false} LockHoldsExactly(l: Limit, events: seq<Event>, m: nat, n: nat, until: int)
    requires Run(l, events) && m <= n < |events|
    requires RecordAfter(l, events, m).Some? && RecordAfter(l, events, m).value.lockedUntil == Some(until)
    requires forall i | m <= i < n :: events[i].Charge? && events[i].now < until
    requires events[n].Charge?
    ensures AdmittedAt(l, events, n) <==> events[n].now >= until
    ensures RecordAfter(l, events, n).Some? && RecordAfter(l, events, n).value.lockedUntil == Some(until)
    ensures RecordAfter(l, events, n).value.failures >= l.maxFailures
  {
    if n > m {
      LockHoldsExactly(l, events, m, n - 1, until);
    } else {
      LockedIsOver(l, events, m);
    }
  }

  lemma {:induction false} LockedIsOver(l: Limit, events: seq<Event>, n: nat)
    requires Run(l, events) && n <= |events|
    ensures Consistent(l, RecordAfter(l, events, n))
  {
    if n > 0 { LockedIsOver(l, events, n - 1); }
  }
}
