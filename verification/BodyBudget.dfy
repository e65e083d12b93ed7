/**
 The request-body budget: a process-wide weighted semaphore and each owner's
 share of it, the charge one request holds, and the loop that buffers a body
 while keeping its charge equal to the buffer's capacity.
 */
module BodyBudget {
  type Owner = nat
  type Byte = bv8

  const MAX_JSON_BODY: int := 64 * 1024 * 1024
  const MAX_MULTIPART_BODY: int := 256 * 1024 * 1024
  const MAX_BODIES_IN_FLIGHT: int := 2 * MAX_MULTIPART_BODY
  const INITIAL_BODY_BUFFER: int := 16 * 1024

  function Min(a: int, b: int): int { if a < b then a else b }
  function Max(a: int, b: int): int { if a < b then b else a }

  // ---- The owners' shares ----

  /** What the owner's charges hold; an owner without an entry holds nothing. */
  function Held(held: map<Owner, int>, o: Owner): int {
    if o in held then held[o] else 0
  }

  function Reserved(held: map<Owner, int>, o: Owner, amount: int): map<Owner, int> {
    held[o := Held(held, o) + amount]
  }

  function Unshared(held: map<Owner, int>, o: Owner, n: int): map<Owner, int> {
    var left := Held(held, o) - n;
    if left > 0 then held[o := left] else held - {o}
  }

  /** The share of a request that may itself be charged up to most bytes. */
  function ShareOf(size: int, most: int): int { Max(size / 4, most) }

  /** "An owner holding nothing has no entry." */
  predicate NoIdleEntry(held: map<Owner, int>) {
    forall o | o in held :: held[o] > 0
  }

  /**
   Giving bytes back never leaves an idle entry; reserving keeps the claim exactly when it
   reserves something or the owner had an entry.
   */
  lemma IdleEntries(held: map<Owner, int>, o: Owner, amount: int)
    requires NoIdleEntry(held) && 0 <= amount
    ensures NoIdleEntry(Reserved(held, o, amount)) <==> amount > 0 || o in held
    ensures NoIdleEntry(Unshared(held, o, amount))
  {
    assert Reserved(held, o, amount)[o] == Held(held, o) + amount;
  }

  class Budget {
    const size: int
    var used: int
    var held: map<Owner, int>

    constructor (size: int)
      ensures this.size == size && used == 0 && held == map[]
    {
      this.size, used, held := size, 0, map[];
    }
  }

  datatype Grant = Granted | OverShare | Busy

  /** What one charge, the semaphore and the shares come to. */
  datatype Account = Account(n: int, used: int, held: map<Owner, int>)

  /** What a grow leaves: a charge refused or timed out gives back what it reserved. */
  function Grown(g: Grant, owner: Owner, amount: int, before: Account): Account {
    match g
    case OverShare => before
    case Granted => Account(before.n + amount, before.used + amount, Reserved(before.held, owner, amount))
    case Busy => before.(held := Unshared(Reserved(before.held, owner, amount), owner, amount))
  }

  /** What giving back all but keep bytes leaves. */
  function Shrunk(keep: int, owner: Owner, before: Account): Account {
    if before.n <= keep then before
    else Account(keep, before.used - (before.n - keep), Unshared(before.held, owner, before.n - keep))
  }

  /** The share of the budget one request holds, counted to its owner. */
  class BodyCharge {
    const budget: Budget
    const owner: Owner
    const share: int
    var n: int
    ghost var grows: nat // calls of Grow
    ghost var asked: int // the most a Grow has asked to come to

    ghost predicate Valid()
      reads this, budget
    {
      0 <= n <= Held(budget.held, owner) && n <= budget.used <= budget.size
    }

    ghost function View(): Account
      reads this, budget
    {
      Account(n, budget.used, budget.held)
    }

    constructor (budget: Budget, owner: Owner, most: int)
      requires 0 <= Held(budget.held, owner) && 0 <= budget.used <= budget.size
      ensures Valid() && this.budget == budget && this.owner == owner && n == 0 && grows == 0 && asked == 0
      ensures most <= share && budget.size / 4 <= share && (share == most || share == budget.size / 4)
    {
      this.budget, this.owner, this.share := budget, owner, ShareOf(budget.size, most);
      n, grows, asked := 0, 0, 0;
    }

    /**
     Refused at once exactly when the owner's charges would pass the share; else
     reserves the share and waits for the semaphore, and gives the reservation
     back when the bytes do not come free before the wait ends.
     */
    method Grow(amount: int, inTime: bool) returns (g: Grant)
      requires Valid() && 0 <= amount
      modifies this`n, this`grows, this`asked, budget`used, budget`held
      ensures Valid() && grows == old(grows) + 1 && asked == Max(old(asked), old(n) + amount)
      ensures g.OverShare? <==> old(Held(budget.held, owner)) + amount > share
      ensures g.Granted? <==> !g.OverShare? && inTime && old(budget.used) + amount <= budget.size
      ensures View() == Grown(g, owner, amount, old(View()))
      ensures g.Granted? ==> n == old(n) + amount && budget.used == old(budget.used) + amount
      ensures !g.Granted? ==> n == old(n) && budget.used == old(budget.used)
      ensures forall o :: Held(budget.held, o) ==
                          old(Held(budget.held, o)) + if g.Granted? && o == owner then amount else 0
    {
      grows, asked := grows + 1, Max(asked, n + amount);
      if Held(budget.held, owner) + amount > share {
        return OverShare;
      }
      budget.held := Reserved(budget.held, owner, amount);
      if !inTime || budget.used + amount > budget.size {
        Unshare(amount);
        return Busy;
      }
      budget.used := budget.used + amount;
      n := n + amount;
      return Granted;
    }

    method Unshare(amount: int)
      requires 0 <= amount <= Held(budget.held, owner)
      modifies budget`held
      ensures budget.held == Unshared(old(budget.held), owner, amount)
      ensures forall o :: Held(budget.held, o) == old(Held(budget.held, o)) - if o == owner then amount else 0
    {
      budget.held := Unshared(budget.held, owner, amount);
    }

    /** Gives back all but keep bytes, to the semaphore and the share alike. */
    method ShrinkTo(keep: int)
      requires Valid() && 0 <= keep
      modifies this`n, budget`used, budget`held
      ensures Valid() && n == Min(old(n), keep)
      ensures View() == Shrunk(keep, owner, old(View()))
      ensures budget.used == old(budget.used) - (old(n) - n)
      ensures forall o :: Held(budget.held, o) == old(Held(budget.held, o)) - if o == owner then old(n) - n else 0
    {
      if n <= keep { return; }
      budget.used := budget.used - (n - keep);
      Unshare(n - keep);
      n := keep;
    }
  }

  // ---- Receiving a body ----

  datatype End = Eof | Broken
  datatype ReadStatus = More | AtEnd(end: End)

  function Concat(chunks: seq<seq<Byte>>): (s: seq<Byte>) {
    if chunks == [] then [] else chunks[0] + Concat(chunks[1..])
  }

  /** Taking n bytes off the first chunk takes them off the whole. */
  lemma {:induction false} Cut(chunks: seq<seq<Byte>>, n: nat)
    requires chunks != [] && n <= |chunks[0]|
    ensures Concat(chunks) == chunks[0][..n] + Concat([chunks[0][n..]] + chunks[1..])
    ensures n == |chunks[0]| ==> Concat(chunks) == chunks[0][..n] + Concat(chunks[1..])
  {
    var rest := [chunks[0][n..]] + chunks[1..];
    assert rest[1..] == chunks[1..];
    assert chunks[0] == chunks[0][..n] + chunks[0][n..];
  }

  /** A request body still to arrive: its remaining chunks, however they are cut, and how it ends. */
  class Body {
    var chunks: seq<seq<Byte>>
    const end: End
    ghost var calls: nat // calls of Read

    function Rest(): seq<Byte>
      reads this
    {
      Concat(chunks)
    }

    constructor (chunks: seq<seq<Byte>>, end: End)
      ensures this.chunks == chunks && this.end == end && calls == 0
    {
      this.chunks, this.end, calls := chunks, end, 0;
    }

    /**
     Reads into buf from position from: at most the space there, at most one
     chunk, possibly nothing. The end may come with the last bytes or after them.
     */
    method Read(buf: array<Byte>, from: nat) returns (n: nat, status: ReadStatus)
      requires from < buf.Length
      modifies this`chunks, this`calls, buf
      ensures from + n <= buf.Length && calls == old(calls) + 1
      ensures buf[..from] == old(buf[..from])
      ensures old(Rest()) == buf[from..from + n] + Rest()
      ensures status.AtEnd? ==> Rest() == [] && chunks == [] && status.end == end
      ensures status.More? ==> |Rest()| + |chunks| < old(|Rest()| + |chunks|)
    {
      calls := calls + 1;
      if chunks == [] {
        return 0, AtEnd(end);
      }
      var head := chunks[0];
      n := Min(|head|, buf.Length - from);
      CopyInto(buf, from, head[..n]);
      Cut(chunks, n);
      chunks := if n == |head| then chunks[1..] else [head[n..]] + chunks[1..];
      var withEnd: bool := *;
      status := if chunks == [] && withEnd then AtEnd(end) else More;
    }
  }

  method CopyInto(buf: array<Byte>, from: nat, bytes: seq<Byte>)
    requires from + |bytes| <= buf.Length
    modifies buf
    ensures buf[from..from + |bytes|] == bytes && buf[..from] == old(buf[..from])
  {
    for i := 0 to |bytes|
      invariant buf[..from] == old(buf[..from])
      invariant buf[from..from + i] == bytes[..i]
    {
      buf[from + i] := bytes[i];
    }
  }

  datatype BodyError =
    | Nothing
    | ShareRefused
    | BudgetBusy
    | UnexpectedEof  // shorter than declared
    | OverRead       // longer than the limit
    | ReadFailed
    | TooLarge       // declared longer than the limit, or decoding to more than allowed
    | Unreadable     // cannot be decoded

  function GrantError(g: Grant): BodyError
    requires !g.Granted?
  {
    if g.OverShare? then ShareRefused else BudgetBusy
  }

  /** What the charge was when the bytes received reached a count. */
  datatype Point = Point(charge: int, received: int)

  /** The charge is bounded by the size the body may have and by twice what has arrived. */
  predicate Fair(p: Point, size: int) {
    p.charge <= size && p.charge <= Max(INITIAL_BODY_BUFFER, 2 * p.received) && p.received <= p.charge
  }

  /** The budget is as it was, but for what this charge holds. */
  ghost predicate CountsOnly(c: BodyCharge, used: int, held: map<Owner, int>)
    reads c, c.budget
  {
    && c.budget.used == used + c.n
    && forall o :: Held(c.budget.held, o) == Held(held, o) + if o == c.owner then c.n else 0
  }

  /** What each outcome says of the whole body and of how much of it was received. */
  predicate RightOutcome(err: BodyError, total: nat, received: int, length: int, limit: int, end: End) {
    match err
    case Nothing => if length < 0 then received == total <= limit && end.Eof? else received == length <= total
    case UnexpectedEof => received == total < length && end.Eof?
    case OverRead => length < 0 && received == limit < total
    case ReadFailed => end.Broken?
    case ShareRefused => true
    case BudgetBusy => true
    case _ => false
  }

  /** The capacity a full buffer grows to. */
  function NextCapacity(capacity: int, size: int): int {
    Min(if capacity == 0 then INITIAL_BODY_BUFFER else 2 * capacity, size)
  }

  /** A full buffer grows, or is refused to; a buffer with room receives. */
  predicate Follows(p: Point, q: Point, size: int) {
    if p.charge == p.received then q.received == p.received && (q == p || q.charge == NextCapacity(p.charge, size))
    else q.charge == p.charge && p.received <= q.received <= p.charge
  }

  /** The recorded points start from nothing, follow one another, are all fair, and end with p. */
  ghost predicate Recorded(charges: seq<Point>, size: int, p: Point) {
    && |charges| > 0 && charges[0] == Point(0, 0) && charges[|charges| - 1] == p
    && (forall i | 0 <= i < |charges| :: Fair(charges[i], size))
    && (forall i | 0 <= i < |charges| - 1 :: Follows(charges[i], charges[i + 1], size))
  }

  lemma Record(charges: seq<Point>, size: int, p: Point, q: Point)
    requires Recorded(charges, size, p) && Fair(q, size) && Follows(p, q, size)
    ensures Recorded(charges + [q], size, q)
  {
    var longer := charges + [q];
    forall i | 0 <= i < |longer| - 1 ensures Follows(longer[i], longer[i + 1], size) {
      if i < |charges| - 1 { assert Follows(charges[i], charges[i + 1], size); }
    }
  }

  /**
   Reads a body of the declared length, or with length negative one up to limit,
   whole, charging held for the buffer as it grows. Any wait may end too early
   unless the request is patient. charges records every growth and every read but
   the probes past the limit, in order.
   */
  method BufferBody(held: BodyCharge, body: Body, length: int, limit: int, patient: bool)
    returns (data: seq<Byte>, capacity: int, err: BodyError, ghost charges: seq<Point>, ghost probes: nat)
    requires held.Valid() && held.n == 0 && 0 <= limit && length <= limit
    modifies held`n, held`grows, held`asked, held.budget`used, held.budget`held, body`chunks, body`calls
    ensures held.Valid() && held.n == capacity
    ensures CountsOnly(held, old(held.budget.used), old(held.budget.held))
    ensures Recorded(charges, if length < 0 then limit else length, Point(capacity, |data|))
    ensures |charges| + probes == 1 + (held.grows - old(held.grows)) + (body.calls - old(body.calls))
    ensures probes > 0 ==> length < 0 && |data| == limit
    ensures held.asked <= Max(old(held.asked), if length < 0 then limit else length)
    ensures |data| <= |old(body.Rest())| && data == old(body.Rest())[..|data|]
    ensures RightOutcome(err, |old(body.Rest())|, |data|, length, limit, body.end)
    ensures err.ShareRefused? ==>
              old(Held(held.budget.held, held.owner)) + (if length < 0 then limit else length) > held.share
    ensures err.BudgetBusy? ==>
              !patient || old(held.budget.used) + (if length < 0 then limit else length) > held.budget.size
  {
    var size := if length < 0 then limit else length;
    ghost var used0, held0, all := held.budget.used, held.budget.held, body.Rest();
    ghost var grows0, calls0, asked0 := held.grows, body.calls, held.asked;
    probes := 0;
    var g, buf := Start(held, body, size, patient, all);
    charges := [Point(0, 0)];
    Record(charges, size, Point(0, 0), Point(held.n, 0));
    charges := charges + [Point(held.n, 0)];
    if !g.Granted? {
      return [], 0, GrantError(g), charges, 0;
    }
    var len := 0;
    err := Unreadable;
    while err == Unreadable && !(len == buf.Length && len == size)
      invariant fresh(buf) && Buffering(held, body, buf, len, size, all, used0, held0)
      invariant Recorded(charges, size, Point(held.n, len))
      invariant |charges| == 1 + (held.grows - grows0) + (body.calls - calls0)
      invariant held.asked <= Max(asked0, size)
      invariant err == Unreadable || RightOutcome(err, |all|, len, length, limit, body.end)
      invariant err.ShareRefused? ==> Held(held0, held.owner) + size > held.share
      invariant err.BudgetBusy? ==> !patient || used0 + size > held.budget.size
      decreases err == Unreadable, |body.Rest()| + |body.chunks|
    {
      buf, len, err, charges := Turn(held, body, buf, len, length, size, patient, all, used0, held0, charges);
    }
    data, capacity := buf[..len], buf.Length;
    assert data == all[..len];
    if err == Unreadable {
      err := Nothing;
      if length < 0 {
        err, probes := ProbeEnd(body);
      }
    }
  }

  /** The first buffer, if the charge for it is granted. */
  method Start(held: BodyCharge, body: Body, size: int, patient: bool, ghost all: seq<Byte>)
    returns (g: Grant, buf: array<Byte>)
    requires held.Valid() && held.n == 0 && 0 <= size && all == body.Rest()
    modifies held`n, held`grows, held`asked, held.budget`used, held.budget`held
    ensures held.grows == old(held.grows) + 1 && held.asked <= Max(old(held.asked), size) && fresh(buf)
    ensures held.Valid() && CountsOnly(held, old(held.budget.used), old(held.budget.held))
    ensures held.n == if g.Granted? then NextCapacity(0, size) else 0
    ensures g.Granted? ==> Buffering(held, body, buf, 0, size, all, old(held.budget.used), old(held.budget.held))
    ensures g.OverShare? ==> old(Held(held.budget.held, held.owner)) + size > held.share
    ensures g.Busy? ==> !patient || old(held.budget.used) + size > held.budget.size
  {
    var initial := Min(INITIAL_BODY_BUFFER, size);
    var lucky: bool := *;
    g := held.Grow(initial, patient || lucky);
    buf := new Byte[if g.Granted? then initial else 0];
  }

  /** Between turns: the buffer holds what was received, the charge is its capacity, and nothing else is charged. */
  ghost predicate Buffering(held: BodyCharge, body: Body, buf: array<Byte>, len: int, size: int,
                            all: seq<Byte>, used: int, owners: map<Owner, int>)
    reads held, held.budget, body, buf
  {
    && 0 <= len <= buf.Length == held.n <= size
    && (buf.Length == 0 ==> size == 0)
    && Fair(Point(held.n, len), size)
    && held.Valid() && CountsOnly(held, used, owners)
    && |all| == len + |body.Rest()| && all == buf[..len] + body.Rest()
  }

  /** One turn of the loop: grow a full buffer, then read once. err is Unreadable when the loop goes on. */
  method Turn(held: BodyCharge, body: Body, buf: array<Byte>, len: nat, length: int, size: int, patient: bool,
              ghost all: seq<Byte>, ghost used: int, ghost owners: map<Owner, int>, ghost charges: seq<Point>)
    returns (next: array<Byte>, received: nat, err: BodyError, ghost points: seq<Point>)
    requires Buffering(held, body, buf, len, size, all, used, owners) && !(len == buf.Length && len == size)
    requires Recorded(charges, size, Point(held.n, len)) && (length < 0 || length == size)
    modifies held`n, held`grows, held`asked, held.budget`used, held.budget`held, body`chunks, body`calls, buf
    ensures next == buf || fresh(next)
    ensures Buffering(held, body, next, received, size, all, used, owners)
    ensures Recorded(points, size, Point(held.n, received))
    ensures held.asked <= Max(old(held.asked), size)
    ensures |points| - |charges| == (held.grows - old(held.grows)) + (body.calls - old(body.calls))
    ensures err == Unreadable ==> |body.Rest()| + |body.chunks| < old(|body.Rest()| + |body.chunks|)
    ensures err == Unreadable || RightOutcome(err, |all|, received, length, size, body.end)
    ensures err.ShareRefused? ==> Held(owners, held.owner) + size > held.share
    ensures err.BudgetBusy? ==> !patient || used + size > held.budget.size
  {
    next, received, err, points := buf, len, Unreadable, charges;
    if len == buf.Length {
      var g;
      g, next := MakeRoom(held, body, buf, len, size, patient, all, used, owners);
      Record(points, size, Point(len, len), Point(held.n, len));
      points := points + [Point(held.n, len)];
      if !g.Granted? {
        err := GrantError(g);
        return;
      }
    }
    var status;
    received, status := Receive(held, body, next, len, size, all, used, owners);
    Record(points, size, Point(held.n, len), Point(held.n, received));
    points := points + [Point(held.n, received)];
    if status.AtEnd? {
      err := EndError(status.end, received, length);
    }
  }

  /** Enlarges a full buffer in the loop. */
  method MakeRoom(held: BodyCharge, body: Body, buf: array<Byte>, len: nat, size: int, patient: bool,
                  ghost all: seq<Byte>, ghost used: int, ghost owners: map<Owner, int>)
    returns (g: Grant, next: array<Byte>)
    requires Buffering(held, body, buf, len, size, all, used, owners) && len == buf.Length < size
    modifies held`n, held`grows, held`asked, held.budget`used, held.budget`held
    ensures Buffering(held, body, next, len, size, all, used, owners)
    ensures held.grows == old(held.grows) + 1 && held.asked <= Max(old(held.asked), size)
    ensures g.Granted? ==> fresh(next) && len < next.Length == NextCapacity(len, size)
    ensures !g.Granted? ==> next == buf
    ensures g.OverShare? ==> Held(owners, held.owner) + size > held.share
    ensures g.Busy? ==> !patient || used + size > held.budget.size
  {
    g, next := Enlarge(held, buf, len, size, patient);
    assert g.Granted? ==> next[..len] == buf[..len];
  }

  function EndError(end: End, received: int, length: int): BodyError {
    if end.Broken? then ReadFailed
    else if length >= 0 && received < length then UnexpectedEof
    else Nothing
  }

  /** One read into the buffer's free space: what is received stays a prefix of the body. */
  method Receive(held: BodyCharge, body: Body, buf: array<Byte>, len: nat, size: int,
                 ghost all: seq<Byte>, ghost used: int, ghost owners: map<Owner, int>)
    returns (received: nat, status: ReadStatus)
    requires Buffering(held, body, buf, len, size, all, used, owners) && len < buf.Length
    modifies body`chunks, body`calls, buf
    ensures len <= received && Buffering(held, body, buf, received, size, all, used, owners)
    ensures body.calls == old(body.calls) + 1
    ensures status.AtEnd? ==> received == |all| && status.end == body.end
    ensures status.More? ==> |body.Rest()| + |body.chunks| < old(|body.Rest()| + |body.chunks|)
  {
    var n;
    n, status := body.Read(buf, len);
    received := len + n;
    assert buf[..received] == buf[..len] + buf[len..received];
  }

  /**
   A full buffer doubles, or goes straight to the size once doubling would reach it, if the
   charge for it is granted.
   */
  method Enlarge(held: BodyCharge, buf: array<Byte>, len: nat, size: int, patient: bool)
    returns (g: Grant, next: array<Byte>)
    requires held.Valid() && len == buf.Length == held.n < size && 0 < len
    modifies held`n, held`grows, held`asked, held.budget`used, held.budget`held
    ensures held.Valid()
    ensures held.grows == old(held.grows) + 1 && held.asked <= Max(old(held.asked), size)
    ensures held.n - held.budget.used == old(held.n - held.budget.used)
    ensures forall o :: Held(held.budget.held, o) ==
                        old(Held(held.budget.held, o)) + if o == held.owner then held.n - old(held.n) else 0
    ensures g.Granted? ==> fresh(next) && next.Length == held.n == Min(2 * len, size) && next[..len] == buf[..]
    ensures !g.Granted? ==> next == buf && held.n == old(held.n)
    ensures g.OverShare? ==> old(Held(held.budget.held, held.owner)) + size - len > held.share
    ensures g.Busy? ==> !patient || old(held.budget.used) + size - len > held.budget.size
  {
    var grown := Min(2 * buf.Length, size);
    var lucky: bool := *;
    g := held.Grow(grown - held.n, patient || lucky);
    if !g.Granted? {
      return g, buf;
    }
    next := new Byte[grown];
    for i := 0 to len
      invariant next[..i] == buf[..i]
      modifies next
    {
      next[i] := buf[i];
    }
  }

  /** Whether a body read up to its limit ends there. */
  method ProbeEnd(body: Body) returns (err: BodyError, ghost probes: nat)
    modifies body`chunks, body`calls
    ensures err in {Nothing, OverRead, ReadFailed}
    ensures body.calls == old(body.calls) + probes
    ensures err.Nothing? ==> old(body.Rest()) == [] && body.end.Eof?
    ensures err.OverRead? ==> old(body.Rest()) != []
    ensures err.ReadFailed? ==> body.end.Broken?
  {
    var probe := new Byte[1];
    probes := 0;
    while true
      invariant body.Rest() == old(body.Rest())
      invariant body.calls == old(body.calls) + probes
      decreases |body.Rest()| + |body.chunks|
    {
      var n, status := body.Read(probe, 0);
      probes := probes + 1;
      if n > 0 { return OverRead, probes; }
      if status.AtEnd? {
        return if status.end.Eof? then Nothing else ReadFailed, probes;
      }
      assert probe[0..0 + n] == [];
    }
  }

  // ---- Decoding, and a request's whole charge ----

  /** The most a model route's body may be charged. */
  function BodyChargeCeiling(limit: int, encoded: bool): int {
    if encoded then limit + MAX_JSON_BODY else limit
  }

  /**
   What undoing the body's codings came to: the decoder's buffer and its capacity, or an
   error, with whether the raw body is JSON as sent.
   */
  datatype Decoded = DecodedTo(data: seq<Byte>, capacity: int) | DecodedTooLarge | Undecodable(rawIsJson: bool)

  /**
   The ceilings, in mebibytes: 64 for JSON as sent and 128 encoded, 256 for multipart; the
   gateway's budget holds two of the largest, and a quarter of it any JSON body.
   */
  lemma CeilingsInMebibytes()
    ensures var mebibyte := 1_048_576;
            && BodyChargeCeiling(MAX_JSON_BODY, false) == 64 * mebibyte
            && BodyChargeCeiling(MAX_JSON_BODY, true) == 128 * mebibyte
            && BodyChargeCeiling(MAX_MULTIPART_BODY, false) == 256 * mebibyte
            && MAX_BODIES_IN_FLIGHT == 512 * mebibyte && NextCapacity(0, 256 * mebibyte) == 16 * 1024
            && ShareOf(MAX_BODIES_IN_FLIGHT, BodyChargeCeiling(MAX_JSON_BODY, true)) == 128 * mebibyte
            && ShareOf(MAX_BODIES_IN_FLIGHT, BodyChargeCeiling(MAX_MULTIPART_BODY, false)) == 256 * mebibyte
  {
  }

  method DecodeRequestBody(held: BodyCharge, raw: seq<Byte>, rawCapacity: int, decoding: Decoded, inTime: bool)
    returns (data: seq<Byte>, err: BodyError)
    requires held.Valid() && 0 <= rawCapacity
    requires decoding.DecodedTo? ==> 0 <= decoding.capacity
    modifies held`n, held`grows, held`asked, held.budget`used, held.budget`held
    ensures held.Valid()
    ensures held.budget.used - held.n == old(held.budget.used - held.n)
    ensures held.asked == Max(old(held.asked), old(held.n) + MAX_JSON_BODY)
    ensures forall o :: Held(held.budget.held, o) ==
                        old(Held(held.budget.held, o)) + if o == held.owner then held.n - old(held.n) else 0
    ensures err.ShareRefused? <==> old(Held(held.budget.held, held.owner)) + MAX_JSON_BODY > held.share
    ensures err.BudgetBusy? <==>
              !err.ShareRefused? && !(inTime && old(held.budget.used) + MAX_JSON_BODY <= held.budget.size)
    ensures err in {Nothing, ShareRefused, BudgetBusy, TooLarge, Unreadable}
    ensures err.Nothing? ==>
              match decoding {
                case DecodedTo(d, c) => data == d && held.n == Min(old(held.n) + MAX_JSON_BODY, c)
                case Undecodable(rawIsJson) => rawIsJson && data == raw &&
                    held.n == Min(old(held.n) + MAX_JSON_BODY, rawCapacity)
                case DecodedTooLarge => false
              }
    ensures err.TooLarge? ==> decoding.DecodedTooLarge?
    ensures err.Unreadable? ==> decoding == Undecodable(false)
    ensures held.n <= old(held.n) + MAX_JSON_BODY
  {
    var g := held.Grow(MAX_JSON_BODY, inTime);
    if !g.Granted? {
      return [], GrantError(g);
    }
    var capacity := rawCapacity;
    match decoding
    case DecodedTooLarge => return [], TooLarge;
    case Undecodable(rawIsJson) =>
      if !rawIsJson { return [], Unreadable; }
      data := raw;
      held.ShrinkTo(rawCapacity);
      err := Nothing;
    case DecodedTo(d, c) =>
      data := d;
      held.ShrinkTo(c);
      err := Nothing;
  }

  /** A body that ends has all its declared bytes, or undeclared no more than the limit. */
  predicate IsComplete(total: nat, length: int, limit: int) {
    if length < 0 then total <= limit else length <= limit && length <= total
  }

  /** The codings can be undone, or the body is JSON as sent. */
  predicate IsReadable(decoding: Decoded) {
    decoding.DecodedTo? || decoding == Undecodable(true)
  }

  /** The body as declared: its first length bytes, or all of it. */
  function Declared(all: seq<Byte>, length: int): seq<Byte> {
    if length < 0 then all else all[..Min(length, |all|)]
  }

  /** What each answer says of the body and its codings. */
  ghost predicate RightAnswer(err: BodyError, data: seq<Byte>, all: seq<Byte>, end: End, length: int, limit: int,
                              encoded: bool, decoding: Decoded) {
    match err
    case Nothing =>
      && data == (if encoded && decoding.DecodedTo? then decoding.data else Declared(all, length))
      && IsComplete(|all|, length, limit) && (length < 0 ==> end.Eof?) && (encoded ==> IsReadable(decoding))
    case UnexpectedEof => |all| < length && end.Eof?
    case OverRead => length < 0 && limit < |all|
    case ReadFailed => end.Broken?
    case TooLarge => length > limit || (encoded && decoding.DecodedTooLarge?)
    case Unreadable => encoded && decoding == Undecodable(false)
    case _ => true
  }

  /** Buffers the body and undoes its codings, the two phases of a request's charge. */
  method ReceiveBody(held: BodyCharge, body: Body, length: int, limit: int, encoded: bool, decoding: Decoded,
      patient: bool)
    returns (data: seq<Byte>, err: BodyError)
    requires held.Valid() && held.n == held.asked == 0 && 0 <= limit && length <= limit
    requires decoding.DecodedTo? ==> 0 <= decoding.capacity
    modifies held`n, held`grows, held`asked, held.budget`used, held.budget`held, body`chunks, body`calls
    ensures held.Valid() && CountsOnly(held, old(held.budget.used), old(held.budget.held))
    ensures held.asked <= BodyChargeCeiling(limit, encoded)
    ensures RightAnswer(err, data, old(body.Rest()), body.end, length, limit, encoded, decoding)
    ensures err.ShareRefused? ==>
              old(Held(held.budget.held, held.owner)) + BodyChargeCeiling(limit, encoded) > held.share
    ensures err.BudgetBusy? ==>
              !patient || old(held.budget.used) + BodyChargeCeiling(limit, encoded) > held.budget.size
  {
    var capacity;
    ghost var charges, probes;
    data, capacity, err, charges, probes := BufferBody(held, body, length, limit, patient);
    if err.Nothing? && encoded {
      var lucky: bool := *;
      data, err := DecodeRequestBody(held, data, capacity, decoding, patient || lucky);
    }
  }

  /**
   One request's body from its empty charge to the release when the handler is
   done. Whatever happens the budget and every owner's share end as they began,
   and an owner with no other charge is never refused for the request's own size.
   With room and no early time-out a body that ends is served exactly when it is
   complete and readable.
   */
  method ServeBody(budget: Budget, owner: Owner, body: Body, length: int, limit: int, encoded: bool, decoding: Decoded,
                   patient: bool)
    returns (data: seq<Byte>, err: BodyError, ghost asked: int)
    requires 0 <= limit && 0 <= Held(budget.held, owner) && 0 <= budget.used <= budget.size
    requires decoding.DecodedTo? ==> 0 <= decoding.capacity
    modifies budget`used, budget`held, body`chunks, body`calls
    ensures budget.used == old(budget.used)
    ensures forall o :: Held(budget.held, o) == old(Held(budget.held, o))
    ensures asked <= BodyChargeCeiling(limit, encoded)
    ensures RightAnswer(err, data, old(body.Rest()), body.end, length, limit, encoded, decoding)
    ensures old(Held(budget.held, owner)) == 0 ==> !err.ShareRefused?
    ensures err.BudgetBusy? ==> !patient || old(budget.used) + BodyChargeCeiling(limit, encoded) > budget.size
    ensures patient && old(Held(budget.held, owner)) == 0 && body.end.Eof?
            && old(budget.used) + BodyChargeCeiling(limit, encoded) <= budget.size ==>
              (err.Nothing? <==> IsComplete(|old(body.Rest())|, length, limit) && (encoded ==> IsReadable(decoding)))
    ensures patient && budget.size == MAX_BODIES_IN_FLIGHT && old(budget.used) == 0 && limit <= MAX_MULTIPART_BODY ==>
              !err.BudgetBusy?
    ensures length > limit ==> err.TooLarge? && budget.held == old(budget.held) && body.Rest() == old(body.Rest())
  {
    if length > limit {
      return [], TooLarge, 0;
    }
    var held := new BodyCharge(budget, owner, BodyChargeCeiling(limit, encoded));
    data, err := ReceiveBody(held, body, length, limit, encoded, decoding, patient);
    asked := held.asked;
    held.ShrinkTo(0);
  }
}
