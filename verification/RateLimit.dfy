/**
 The per-client token bucket. A bucket's level is its tokens times Every, which
 exact arithmetic keeps an integer, so one token is Every and a full bucket is
 Burst times Every. The bounded table forgets buckets; its partner here is the
 limiter that never does.
 */
module RateLimit {
  import Sorting

  datatype Rate = Rate(burst: nat, every: int, maxClients: int)

  /** What the configuration must satisfy for the limiter to work at all. */
  predicate ValidRate(r: Rate) {
    0 < r.every && 1 <= r.maxClients
  }

  type Key = string

  /** A client's tokens, times Every, as of last. */
  datatype Bucket = Bucket(level: int, last: int)
  type Table = map<Key, Bucket>

  datatype Answer = Allowed | Wait(time: int)

  /** What n tokens are worth. */
  function Tokens(r: Rate, n: nat): int {
    if n == 0 then 0 else Tokens(r, n - 1) + r.every
  }

  /** A full bucket. */
  function Cap(r: Rate): int { Tokens(r, r.burst) }

  lemma {:induction false} TokensAreProduct(r: Rate, n: nat)
    ensures Tokens(r, n) == n * r.every
  {
    if n > 0 {
      TokensAreProduct(r, n - 1);
      assert n * r.every == (n - 1) * r.every + r.every;
    }
  }

  lemma {:induction false} TokensAreWhole(r: Rate, n: nat)
    requires 0 < r.every
    ensures 0 <= Tokens(r, n) && (n >= 1 <==> Tokens(r, n) >= r.every)
  {
    if n > 0 { TokensAreWhole(r, n - 1); }
  }

  lemma CapFacts(r: Rate)
    requires 0 < r.every
    ensures 0 <= Cap(r)
    ensures r.burst >= 1 <==> Cap(r) >= r.every
  {
    TokensAreWhole(r, r.burst);
  }

  function Refilled(r: Rate, b: Bucket, now: int): int {
    var elapsed := now - b.last;
    if elapsed <= 0 then b.level
    else if b.level + elapsed < Cap(r) then b.level + elapsed else Cap(r)
  }

  function Fresh(r: Rate, now: int): Bucket { Bucket(Cap(r), now) }

  /** One attempt on a bucket. */
  function Attempt(r: Rate, b: Bucket, now: int): (Bucket, Answer) {
    var level := Refilled(r, b, now);
    if level >= r.every then (Bucket(level - r.every, now), Allowed)
    else (Bucket(level, now), Wait(r.every - level))
  }

  // ---- The limiter that never forgets ----

  function Known(r: Rate, t: Table, key: Key, now: int): Bucket {
    if key in t then t[key] else Fresh(r, now)
  }

  // ---- The limiter with bounded memory ----

  /** The buckets not completely refilled. */
  function Limited(r: Rate, t: Table, now: int): Table {
    map k | k in t && Refilled(r, t[k], now) < Cap(r) :: t[k]
  }

  /** The keys evicted for real: as many as it takes to leave room, from those still limited. */
  predicate Evicts(r: Rate, t: Table, key: Key, now: int, victims: set<Key>) {
    if key in t || |t| < r.maxClients then victims == {}
    else
      var limited := Limited(r, t, now);
      && victims <= limited.Keys
      && |victims| == if |limited| < r.maxClients then 0 else |limited| - r.maxClients + 1
  }

  function MadeRoom(r: Rate, t: Table, key: Key, now: int, victims: set<Key>): Table {
    if key in t || |t| < r.maxClients then t else Limited(r, t, now) - victims
  }

  /** A call to allow: the key, the clock's reading, and what the eviction loop chose. */
  datatype Call = Call(key: Key, now: int, victims: set<Key>)

  function Step(r: Rate, t: Table, c: Call): (Table, Answer) {
    var room := MadeRoom(r, t, c.key, c.now, c.victims);
    var (b, answer) := Attempt(r, Known(r, room, c.key, c.now), c.now);
    (room[c.key := b], answer)
  }

  function StepRemembering(r: Rate, t: Table, c: Call): (Table, Answer) {
    var (b, answer) := Attempt(r, Known(r, t, c.key, c.now), c.now);
    (t[c.key := b], answer)
  }

  /** An attempt on the entry found is the limiter's step. */
  lemma AttemptOnFound(r: Rate, t: Table, c: Call)
    requires c.key in t && |t| <= r.maxClients
    ensures var (b, answer) := Attempt(r, t[c.key], c.now);
            Step(r, t, c) == (t[c.key := b], answer) && |t[c.key := b]| <= r.maxClients
  {
    var b := Attempt(r, t[c.key], c.now).0;
    assert t[c.key := b].Keys == t.Keys;
  }

  /** So is one on an entry freshly made once there is room. */
  lemma AttemptOnFresh(r: Rate, t: Table, c: Call, room: Table, found: Table)
    requires c.key !in t && room == MadeRoom(r, t, c.key, c.now, c.victims) && |room| < r.maxClients
    requires found == room[c.key := Fresh(r, c.now)]
    ensures var (b, answer) := Attempt(r, found[c.key], c.now);
            Step(r, t, c) == (found[c.key := b], answer) && |found[c.key := b]| <= r.maxClients
  {
    assert c.key !in room;
    var b := Attempt(r, found[c.key], c.now).0;
    Overwritten(room, c.key, found[c.key], b);
  }

  lemma Overwritten(room: Table, key: Key, first: Bucket, second: Bucket)
    requires key !in room
    ensures room[key := first][key := second] == room[key := second]
    ensures |room[key := second]| == |room| + 1
  {
    assert room[key := second].Keys == room.Keys + {key};
    assert |room[key := second].Keys| == |room.Keys| + 1;
  }

  // ---- The limiter as the source keeps it ----

  class Limiter {
    const rate: Rate
    var buckets: Table

    constructor (rate: Rate)
      ensures this.rate == rate && buckets == map[]
    {
      this.rate, buckets := rate, map[];
    }

    method Allow(key: Key, now: int) returns (answer: Answer, ghost victims: set<Key>)
      requires ValidRate(rate) && |buckets| <= rate.maxClients
      modifies this`buckets
      ensures Evicts(rate, old(buckets), key, now, victims)
      ensures (buckets, answer) == Step(rate, old(buckets), Call(key, now, victims))
      ensures |buckets| <= rate.maxClients
      ensures !HiddenByEmptyKey(Limited(rate, old(buckets), now)) ==>
                LongestAgo(Limited(rate, old(buckets), now), victims)
    {
      victims := {};
      ghost var before := buckets;
      if key !in buckets {
        victims := MakeRoom(key, now);
        buckets := buckets[key := Fresh(rate, now)];
        AttemptOnFresh(rate, before, Call(key, now, victims), MadeRoom(rate, before, key, now, victims), buckets);
      } else {
        AttemptOnFound(rate, before, Call(key, now, victims));
      }
      var entry := buckets[key];
      var level := Refilled(rate, entry, now);
      if level >= rate.every {
        buckets := buckets[key := Bucket(level - rate.every, now)];
        answer := Allowed;
      } else {
        buckets := buckets[key := Bucket(level, now)];
        answer := Wait(rate.every - level);
      }
    }

    /** Forgets the buckets that refilled; only if all are still limited, the one seen longest ago. */
    method MakeRoom(key: Key, now: int) returns (ghost victims: set<Key>)
      requires ValidRate(rate) && key !in buckets && |buckets| <= rate.maxClients
      modifies this`buckets
      ensures Evicts(rate, old(buckets), key, now, victims)
      ensures buckets == MadeRoom(rate, old(buckets), key, now, victims)
      ensures |buckets| < rate.maxClients
      ensures !HiddenByEmptyKey(Limited(rate, old(buckets), now)) ==>
                LongestAgo(Limited(rate, old(buckets), now), victims)
    {
      victims := {};
      if |buckets| < rate.maxClients { return; }
      LimitedIsNoLarger(rate, buckets, now);
      buckets := Limited(rate, buckets, now);
      victims := EvictOldest();
    }

    /** The loop deletes until there is room; of a table within its bound, one key at most. */
    method EvictOldest() returns (ghost victims: set<Key>)
      requires 1 <= rate.maxClients && |buckets| <= rate.maxClients
      modifies this`buckets
      ensures victims <= old(buckets).Keys && buckets == old(buckets) - victims
      ensures |victims| == if |old(buckets)| < rate.maxClients then 0 else |old(buckets)| - rate.maxClients + 1
      ensures |buckets| < rate.maxClients
      ensures !HiddenByEmptyKey(old(buckets)) ==> LongestAgo(old(buckets), victims)
    {
      victims := {};
      ghost var all := buckets;
      assert all - victims == all;
      while KeepsEvicting(rate, buckets)
        invariant victims == {} ==> buckets == all
        invariant victims != {} ==> |all| == rate.maxClients && |victims| == 1 && |buckets| == |all| - 1
        invariant victims <= all.Keys && buckets == all - victims
        invariant !HiddenByEmptyKey(all) ==> LongestAgo(all, victims)
        decreases |buckets|
      {
        ghost var order;
        var oldest;
        oldest, order := Oldest();
        RemoveOne(all, oldest);
        buckets := buckets - {oldest};
        victims := {oldest};
      }
    }

    /** The loop's choice, over the table visited in some order. */
    method Oldest() returns (oldest: Key, ghost order: seq<Key>)
      requires |buckets| > 0
      ensures IsOrder(order, buckets) && oldest == Chosen(buckets, order)
      ensures oldest in buckets
      ensures order != [] && (IsLongestAgo(buckets, oldest) <==> !HiddenByEmptyKey(buckets) || order[|order| - 1] == "")
    {
      var at := 0;
      oldest, order := "", [];
      var left := buckets.Keys;
      while left != {}
        invariant left <= buckets.Keys
        invariant forall k :: k in order <==> k in buckets && k !in left
        invariant forall i, j | 0 <= i < j < |order| :: order[i] != order[j]
        invariant order == [] ==> oldest == ""
        invariant order != [] ==> oldest == Chosen(buckets, order) && at == buckets[oldest].last
        decreases |left|
      {
        var k := Sorting.Take(left);
        ChosenNext(buckets, order, k);
        order := order + [k];
        if oldest == "" || buckets[k].last < at {
          oldest, at := k, buckets[k].last;
        }
        left := left - {k};
      }
      SomeVisited(buckets, order);
      OldestIsChosenExactly(buckets, order);
    }
  }

  // ---- Which bucket is forgotten ----

  ghost predicate IsOrder(order: seq<Key>, t: Table) {
    && (forall k :: k in order <==> k in t)
    && (forall i, j | 0 <= i < j < |order| :: order[i] != order[j])
  }

  lemma SomeVisited(t: Table, order: seq<Key>)
    requires |t| > 0 && IsOrder(order, t)
    ensures order != []
  {
    var k :| k in t.Keys;
    assert k in order;
  }

  /** The loop's variable after visiting keys in that order: an empty key stands for nothing chosen yet. */
  function Chosen(t: Table, order: seq<Key>): (k: Key)
    requires order != [] && forall k | k in order :: k in t
    ensures k in order
  {
    var last := order[|order| - 1];
    if |order| == 1 then last
    else
      var chosen := Chosen(t, order[..|order| - 1]);
      if chosen == "" || t[last].last < t[chosen].last then last else chosen
  }

  lemma ChosenNext(t: Table, order: seq<Key>, k: Key)
    requires k in t && forall o | o in order :: o in t
    ensures forall o | o in order + [k] :: o in t
    ensures Chosen(t, order + [k]) ==
            if order == [] || Chosen(t, order) == "" || t[k].last < t[Chosen(t, order)].last then k
            else Chosen(t, order)
  {
    assert (order + [k])[..|order|] == order;
  }

  ghost predicate IsLongestAgo(t: Table, k: Key) {
    k in t && forall o | o in t :: t[k].last <= t[o].last
  }

  /** Every victim was seen no later than every bucket that stays. */
  ghost predicate LongestAgo(t: Table, victims: set<Key>) {
    forall v, k | v in victims && v in t && k in t && k !in victims :: t[v].last <= t[k].last
  }

  /** The empty key's bucket is strictly the oldest, and not the only one. */
  ghost predicate HiddenByEmptyKey(t: Table) {
    && "" in t && |t| > 1
    && forall k | k in t && k != "" :: t[""].last < t[k].last
  }

  /** Once the oldest named key is visited, the loop holds a named key seen no later. */
  lemma {:induction false} ChosenIsAsOld(t: Table, order: seq<Key>, m: Key)
    requires order != [] && (forall k | k in order :: k in t) && m in order && m != ""
    requires IsLongestAgo(t, m)
    ensures Chosen(t, order) != "" && t[Chosen(t, order)].last == t[m].last
  {
    if |order| > 1 {
      var init, last := order[..|order| - 1], order[|order| - 1];
      assert order == init + [last];
      if m in init {
        ChosenIsAsOld(t, init, m);
      }
    }
  }

  lemma {:induction false} OldestNamed(t: Table, keys: set<Key>) returns (m: Key)
    requires keys != {} && keys <= t.Keys
    ensures m in keys && forall k | k in keys :: t[m].last <= t[k].last
  {
    var k :| k in keys;
    m := k;
    if keys != {k} {
      var n := OldestNamed(t, keys - {k});
      if t[n].last < t[k].last { m := n; }
    }
  }

  lemma ChosenIsLongestAgo(t: Table, order: seq<Key>)
    requires order != [] && IsOrder(order, t) && !HiddenByEmptyKey(t)
    ensures IsLongestAgo(t, Chosen(t, order))
  {
    var named := t.Keys - {""};
    assert named == {} ==> forall k | k in t :: k == "";
    if named != {} {
      var m := OldestNamed(t, named);
      if "" in t {
        assert |t.Keys| == |named| + 1;
        assert t[m].last <= t[""].last;
      }
      assert IsLongestAgo(t, m);
      assert m in order;
      ChosenIsAsOld(t, order, m);
    }
  }

  lemma RemoveOne(t: Table, k: Key)
    requires k in t
    ensures (t - {k}).Keys == t.Keys - {k} && |t - {k}| == |t| - 1
  {
    assert (t - {k}).Keys == t.Keys - {k};
    assert |(t - {k}).Keys| == |t.Keys| - 1;
  }

  lemma LimitedIsNoLarger(r: Rate, t: Table, now: int)
    ensures |Limited(r, t, now)| <= |t|
  {
    assert Limited(r, t, now).Keys <= t.Keys;
    SubsetIsNoLarger(Limited(r, t, now).Keys, t.Keys);
  }

  lemma SubsetIsNoLarger(a: set<Key>, b: set<Key>)
    requires a <= b
    ensures |a| <= |b|
  {
    assert b == a + (b - a);
  }

  /** Where the empty key's bucket is the older of any two, the loop ends with it exactly when it visits it last. */
  lemma {:induction false} HiddenChoice(t: Table, order: seq<Key>)
    requires order != [] && (forall k | k in order :: k in t) && "" in t
    requires forall i, j | 0 <= i < j < |order| :: order[i] != order[j]
    requires forall k | k in order && k != "" :: t[""].last < t[k].last
    ensures Chosen(t, order) == "" <==> order[|order| - 1] == ""
  {
    if |order| > 1 {
      var init := order[..|order| - 1];
      HiddenChoice(t, init);
      if order[|order| - 1] == "" {
        assert init[|init| - 1] != "";
        assert Chosen(t, init) in init;
      }
    }
  }

  /**
   When the loop takes the bucket seen longest ago: always, but on a table where the
   empty key's bucket is strictly the oldest of several, and there exactly when the
   empty key is visited last.
   */
  lemma OldestIsChosenExactly(t: Table, order: seq<Key>)
    requires order != [] && IsOrder(order, t)
    ensures IsLongestAgo(t, Chosen(t, order)) <==> !HiddenByEmptyKey(t) || order[|order| - 1] == ""
  {
    if HiddenByEmptyKey(t) {
      HiddenChoice(t, order);
    } else {
      ChosenIsLongestAgo(t, order);
    }
  }

  /** The eviction loop's guard. */
  predicate KeepsEvicting(r: Rate, t: Table) { |t| >= r.maxClients }

  /** What the loop leaves of the table after deleting those choices in turn. */
  function Remaining(t: Table, chosen: seq<Key>): Table {
    if chosen == [] then t else Remaining(t, chosen[..|chosen| - 1]) - {chosen[|chosen| - 1]}
  }

  /** Each choice is a key of the table as it is then; of an empty table it is the empty key, and deletes nothing. */
  ghost predicate LoopChoices(t: Table, chosen: seq<Key>) {
    chosen == [] ||
    var before := Remaining(t, chosen[..|chosen| - 1]);
    && LoopChoices(t, chosen[..|chosen| - 1])
    && (if |before| == 0 then chosen[|chosen| - 1] == "" else chosen[|chosen| - 1] in before)
  }

  lemma {:induction false} RemainingSize(t: Table, chosen: seq<Key>)
    requires LoopChoices(t, chosen)
    ensures |Remaining(t, chosen)| == if |chosen| <= |t| then |t| - |chosen| else 0
  {
    if chosen != [] {
      var before, k := Remaining(t, chosen[..|chosen| - 1]), chosen[|chosen| - 1];
      RemainingSize(t, chosen[..|chosen| - 1]);
      if |before| == 0 {
        assert before.Keys == {};
        assert before - {k} == before;
      } else {
        assert (before - {k}).Keys == before.Keys - {k};
        assert |(before - {k}).Keys| == |before.Keys| - 1;
      }
    }
  }

  /**
   How long the eviction loop runs, whatever it chooses: forever when no client may
   be remembered, since then its guard holds even of the empty table; else exactly
   until one more client fits.
   */
  lemma EvictionEnds(r: Rate, t: Table, chosen: seq<Key>)
    requires LoopChoices(t, chosen)
    ensures KeepsEvicting(r, Remaining(t, chosen)) <==> r.maxClients < 1 || |chosen| <= |t| - r.maxClients
  {
    RemainingSize(t, chosen);
  }

  // ---- Runs ----

  function After(r: Rate, calls: seq<Call>, n: nat): Table
    requires n <= |calls|
  {
    if n == 0 then map[] else Step(r, After(r, calls, n - 1), calls[n - 1]).0
  }

  function AnswerAt(r: Rate, calls: seq<Call>, i: nat): Answer
    requires i < |calls|
  {
    Step(r, After(r, calls, i), calls[i]).1
  }

  function Remembering(r: Rate, calls: seq<Call>, n: nat): Table
    requires n <= |calls|
  {
    if n == 0 then map[] else StepRemembering(r, Remembering(r, calls, n - 1), calls[n - 1]).0
  }

  function RememberingAnswer(r: Rate, calls: seq<Call>, i: nat): Answer
    requires i < |calls|
  {
    StepRemembering(r, Remembering(r, calls, i), calls[i]).1
  }

  /**
   The clock, read in the order the lock sees the calls, never goes back, and each eviction
   is one the loop can make.
   */
  ghost predicate Run(r: Rate, calls: seq<Call>) {
    && ValidRate(r)
    && (forall i, j | 0 <= i < j < |calls| :: calls[i].now <= calls[j].now)
    && (forall i | 0 <= i < |calls| :: LegalEviction(r, calls, i))
  }

  ghost predicate LegalEviction(r: Rate, calls: seq<Call>, i: nat)
    requires i < |calls|
  {
    Evicts(r, After(r, calls, i), calls[i].key, calls[i].now, calls[i].victims)
  }

  /** The key is never forgotten for real among the first n calls. */
  ghost predicate Kept(calls: seq<Call>, n: nat, key: Key)
    requires n <= |calls|
  {
    forall i | 0 <= i < n :: key !in calls[i].victims
  }

  /** The table never outgrows its bound. */
  lemma {:induction false} TableIsBounded(r: Rate, calls: seq<Call>, n: nat)
    requires Run(r, calls) && n <= |calls|
    ensures |After(r, calls, n)| <= r.maxClients
  {
    if n > 0 {
      TableIsBounded(r, calls, n - 1);
      assert LegalEviction(r, calls, n - 1);
      StepIsBounded(r, After(r, calls, n - 1), calls[n - 1]);
    }
  }

  lemma StepIsBounded(r: Rate, t: Table, c: Call)
    requires ValidRate(r) && |t| <= r.maxClients && Evicts(r, t, c.key, c.now, c.victims)
    ensures |Step(r, t, c).0| <= r.maxClients
  {
    var room := MadeRoom(r, t, c.key, c.now, c.victims);
    if c.key in t {
      AttemptOnFound(r, t, c);
    } else {
      if |t| >= r.maxClients {
        RoomSize(Limited(r, t, c.now), c.victims);
      }
      AttemptOnFresh(r, t, c, room, room[c.key := Fresh(r, c.now)]);
    }
  }

  lemma RoomSize(limited: Table, victims: set<Key>)
    requires victims <= limited.Keys
    ensures |limited - victims| == |limited| - |victims|
  {
    assert (limited - victims).Keys == limited.Keys - victims;
    assert |limited.Keys - victims| == |limited.Keys| - |victims|;
  }

  // ---- Forgetting changes nothing ----

  ghost predicate Sound(r: Rate, b: Bucket, now: int) {
    0 <= b.level <= Cap(r) && b.last <= now
  }

  /** What the bounded table knows of a key is what remembering knows, or remembering's bucket is full. */
  ghost predicate Agrees(r: Rate, t: Table, u: Table, now: int, key: Key) {
    && (key in t ==> key in u && t[key] == u[key])
    && (key in u ==> Sound(r, u[key], now))
    && (key in u && key !in t ==> Refilled(r, u[key], now) == Cap(r))
  }

  lemma StepAgrees(r: Rate, t: Table, u: Table, from: int, c: Call, key: Key)
    requires ValidRate(r) && from <= c.now && Agrees(r, t, u, from, key)
    requires Evicts(r, t, c.key, c.now, c.victims) && key !in c.victims
    ensures Agrees(r, Step(r, t, c).0, StepRemembering(r, u, c).0, c.now, key)
    ensures c.key == key ==> Step(r, t, c).1 == StepRemembering(r, u, c).1
  {
    CapFacts(r);
  }

  lemma {:induction false} PrefixAgrees(r: Rate, calls: seq<Call>, n: nat, key: Key)
    requires Run(r, calls) && 0 < n <= |calls| && Kept(calls, n, key)
    ensures Agrees(r, After(r, calls, n), Remembering(r, calls, n), calls[n - 1].now, key)
  {
    CapFacts(r);
    if n > 1 {
      PrefixAgrees(r, calls, n - 1, key);
    }
    var from := if n > 1 then calls[n - 2].now else calls[0].now;
    assert LegalEviction(r, calls, n - 1);
    StepAgrees(r, After(r, calls, n - 1), Remembering(r, calls, n - 1), from, calls[n - 1], key);
  }

  /**
   A key never forgotten for real gets at every call the answer and wait it would get from a
   limiter that forgets nothing.
   */
  lemma ForgettingIsInvisible(r: Rate, calls: seq<Call>, i: nat)
    requires Run(r, calls) && i < |calls| && Kept(calls, i + 1, calls[i].key)
    ensures AnswerAt(r, calls, i) == RememberingAnswer(r, calls, i)
  {
    CapFacts(r);
    if i > 0 {
      PrefixAgrees(r, calls, i, calls[i].key);
    }
    var from := if i > 0 then calls[i - 1].now else calls[0].now;
    assert LegalEviction(r, calls, i);
    StepAgrees(r, After(r, calls, i), Remembering(r, calls, i), from, calls[i], calls[i].key);
  }

  // ---- The rate ----

  /** Call i is the key's, at a time from s to e, and admitted. */
  predicate Admitted(r: Rate, calls: seq<Call>, i: nat, key: Key, s: int, e: int)
    requires i < |calls|
  {
    calls[i].key == key && s <= calls[i].now <= e && AnswerAt(r, calls, i).Allowed?
  }

  /** How many of the first n calls, at times s to e, were the key's and admitted. */
  function Admissions(r: Rate, calls: seq<Call>, n: nat, key: Key, s: int, e: int): nat
    requires n <= |calls|
  {
    if n == 0 then 0
    else Admissions(r, calls, n - 1, key, s, e) + if Admitted(r, calls, n - 1, key, s, e) then 1 else 0
  }

  /** The key's level at a time. */
  function LevelAt(r: Rate, u: Table, key: Key, now: int): int {
    if key in u then Refilled(r, u[key], now) else Cap(r)
  }

  function Later(a: int, b: int): int { if a < b then b else a }

  /** How many of the first n calls, at times s to e, forgot the key for real. */
  function Evictions(calls: seq<Call>, n: nat, key: Key, s: int, e: int): nat
    requires n <= |calls|
  {
    if n == 0 then 0
    else Evictions(calls, n - 1, key, s, e) + if key in calls[n - 1].victims && s <= calls[n - 1].now <= e then 1 else 0
  }

  ghost predicate AllSound(r: Rate, t: Table, now: int) {
    forall k | k in t :: Sound(r, t[k], now)
  }

  lemma {:induction false} TablesAreSound(r: Rate, calls: seq<Call>, n: nat, now: int)
    requires Run(r, calls) && n <= |calls| && (n > 0 ==> calls[n - 1].now <= now)
    ensures AllSound(r, After(r, calls, n), now)
  {
    if n > 0 {
      var c := calls[n - 1];
      TablesAreSound(r, calls, n - 1, c.now);
      CapFacts(r);
      assert AllSound(r, MadeRoom(r, After(r, calls, n - 1), c.key, c.now, c.victims), c.now);
    }
  }

  /** Forgetting a refilled bucket changes no level from then on; forgetting one for real adds at most a full bucket. */
  lemma RoomLevel(r: Rate, t: Table, c: Call, key: Key, at: int)
    requires 0 < r.every && c.now <= at && AllSound(r, t, c.now)
    ensures LevelAt(r, MadeRoom(r, t, c.key, c.now, c.victims), key, at)
         <= LevelAt(r, t, key, at) + if key in c.victims then Cap(r) else 0
  {
    CapFacts(r);
    if key in t { assert Sound(r, t[key], c.now); }
  }

  /** Tokens taken and tokens left are paid for by the burst, the time passed, and a burst more for each eviction. */
  ghost predicate Paid(r: Rate, calls: seq<Call>, n: nat, key: Key, s: int, e: int, at: int)
    requires n <= |calls|
  {
    Tokens(r, Admissions(r, calls, n, key, s, e)) + LevelAt(r, After(r, calls, n), key, at)
    <= Cap(r) + at - s + Bursts(r, Evictions(calls, n, key, s, e))
  }

  /** What n full buckets are worth. */
  function Bursts(r: Rate, n: nat): int {
    if n == 0 then 0 else Bursts(r, n - 1) + Cap(r)
  }

  lemma {:induction false} BurstsAreProduct(r: Rate, n: nat)
    ensures Bursts(r, n) == n * Cap(r)
  {
    if n > 0 {
      BurstsAreProduct(r, n - 1);
      assert n * Cap(r) == (n - 1) * Cap(r) + Cap(r);
    }
  }

  lemma {:induction false} TakenIsPaid(r: Rate, calls: seq<Call>, n: nat, key: Key, s: int, e: int, at: int)
    requires Run(r, calls) && n <= |calls| && s <= at && (n > 0 ==> calls[n - 1].now <= at && calls[n - 1].now <= e)
    ensures Paid(r, calls, n, key, s, e, at)
  {
    CapFacts(r);
    if n > 0 {
      var c := calls[n - 1];
      TablesAreSound(r, calls, n - 1, c.now);
      if c.now < s {
        TablesAreSound(r, calls, n, at);
        NothingBefore(r, calls, n, key, s, e);
        LevelIsWithin(r, After(r, calls, n), key, at);
      } else {
        TakenIsPaid(r, calls, n - 1, key, s, e, c.now);
        TurnIsPaid(r, calls, n, key, s, e);
        TablesAreSound(r, calls, n, c.now);
        LevelGrows(r, After(r, calls, n), key, c.now, at);
      }
    }
  }

  lemma LevelIsWithin(r: Rate, t: Table, key: Key, at: int)
    requires 0 < r.every && AllSound(r, t, at)
    ensures LevelAt(r, t, key, at) <= Cap(r)
  {
  }

  lemma LevelGrows(r: Rate, t: Table, key: Key, from: int, at: int)
    requires 0 < r.every && from <= at && AllSound(r, t, from)
    ensures LevelAt(r, t, key, at) <= LevelAt(r, t, key, from) + at - from
  {
    if key in t { assert Sound(r, t[key], from); }
  }

  /** Nothing is counted among calls that all come before the interval. */
  lemma {:induction false} NothingBefore(r: Rate, calls: seq<Call>, n: nat, key: Key, s: int, e: int)
    requires Run(r, calls) && n <= |calls| && (n > 0 ==> calls[n - 1].now < s)
    ensures Admissions(r, calls, n, key, s, e) == 0 && Evictions(calls, n, key, s, e) == 0
  {
    if n > 0 { NothingBefore(r, calls, n - 1, key, s, e); }
  }

  /** One call in the interval: what it takes and what it forgets, at its own instant. */
  lemma TurnIsPaid(r: Rate, calls: seq<Call>, n: nat, key: Key, s: int, e: int)
    requires Run(r, calls) && 0 < n <= |calls| && s <= calls[n - 1].now <= e
    requires AllSound(r, After(r, calls, n - 1), calls[n - 1].now)
    requires Paid(r, calls, n - 1, key, s, e, calls[n - 1].now)
    ensures Paid(r, calls, n, key, s, e, calls[n - 1].now)
  {
    var c, t := calls[n - 1], After(r, calls, n - 1);
    var before, forgotten := Admissions(r, calls, n - 1, key, s, e), Evictions(calls, n - 1, key, s, e);
    StepIsPaid(r, t, c, key, before);
    var took := if c.key == key && Step(r, t, c).1.Allowed? then 1 else 0;
    var lost := if key in c.victims then 1 else 0;
    assert Admissions(r, calls, n, key, s, e) == before + took;
    assert Evictions(calls, n, key, s, e) == forgotten + lost;
    assert After(r, calls, n) == Step(r, t, c).0;
    assert Bursts(r, forgotten + lost) == Bursts(r, forgotten) + if key in c.victims then Cap(r) else 0;
  }

  /** A step takes a token when it admits the key, and adds to its level only by forgetting it. */
  lemma StepIsPaid(r: Rate, t: Table, c: Call, key: Key, before: nat)
    requires 0 < r.every && AllSound(r, t, c.now)
    ensures var (u, answer) := Step(r, t, c);
            Tokens(r, before + if c.key == key && answer.Allowed? then 1 else 0) + LevelAt(r, u, key, c.now)
            <= Tokens(r, before) + LevelAt(r, t, key, c.now) + if key in c.victims then Cap(r) else 0
  {
    var room := MadeRoom(r, t, c.key, c.now, c.victims);
    RoomLevel(r, t, c, key, c.now);
    assert AllSound(r, room, c.now);
    AttemptIsPaid(r, room, c, key, before);
  }

  /** An attempt of the key takes a token when it is admitted; no attempt adds to any level. */
  lemma AttemptIsPaid(r: Rate, room: Table, c: Call, key: Key, before: nat)
    requires 0 < r.every && AllSound(r, room, c.now)
    ensures var (b, answer) := Attempt(r, Known(r, room, c.key, c.now), c.now);
            Tokens(r, before + if c.key == key && answer.Allowed? then 1 else 0)
            + LevelAt(r, room[c.key := b], key, c.now)
            <= Tokens(r, before) + LevelAt(r, room, key, c.now)
  {
    CapFacts(r);
  }

  /**
   In any interval a key is admitted at most Burst times and once more per Every, and
   at most Burst times more for each time it was forgotten for real in it.
   */
  lemma RateWithEvictions(r: Rate, calls: seq<Call>, n: nat, key: Key, s: int, e: int)
    requires Run(r, calls) && n <= |calls| && s <= e
    ensures Admissions(r, calls, n, key, s, e) * r.every
         <= (Evictions(calls, n, key, s, e) + 1) * (r.burst * r.every) + (e - s)
    decreases n
  {
    if n > 0 && calls[n - 1].now > e {
      RateWithEvictions(r, calls, n - 1, key, s, e);
    } else {
      TakenIsPaid(r, calls, n, key, s, e, e);
      TablesAreSound(r, calls, n, e);
      LevelIsNonNegative(r, After(r, calls, n), key, e);
      PaidInFull(r, Admissions(r, calls, n, key, s, e), Evictions(calls, n, key, s, e), e - s);
    }
  }

  lemma PaidInFull(r: Rate, admissions: nat, evictions: nat, time: int)
    requires Tokens(r, admissions) <= Cap(r) + time + Bursts(r, evictions)
    ensures admissions * r.every <= (evictions + 1) * (r.burst * r.every) + time
  {
    TokensAreProduct(r, admissions);
    TokensAreProduct(r, r.burst);
    BurstsAreProduct(r, evictions + 1);
  }

  lemma LevelIsNonNegative(r: Rate, t: Table, key: Key, at: int)
    requires 0 < r.every && AllSound(r, t, at)
    ensures 0 <= LevelAt(r, t, key, at)
  {
    CapFacts(r);
    if key in t { assert Sound(r, t[key], at); }
  }

  /** In any interval a key that is never forgotten for real is admitted at most Burst times and once more per Every. */
  lemma RateIsBounded(r: Rate, calls: seq<Call>, n: nat, key: Key, s: int, e: int)
    requires Run(r, calls) && n <= |calls| && Kept(calls, n, key) && s <= e
    ensures Admissions(r, calls, n, key, s, e) * r.every <= r.burst * r.every + (e - s)
  {
    RateWithEvictions(r, calls, n, key, s, e);
    NoEvictions(calls, n, key, s, e);
  }

  lemma {:induction false} NoEvictions(calls: seq<Call>, n: nat, key: Key, s: int, e: int)
    requires n <= |calls| && Kept(calls, n, key)
    ensures Evictions(calls, n, key, s, e) == 0
  {
    if n > 0 { NoEvictions(calls, n - 1, key, s, e); }
  }

  // ---- What a client is sure to get ----

  /** How many of the calls from i up to n are the key's. */
  function CallsOf(calls: seq<Call>, i: nat, n: nat, key: Key): nat
    requires i <= n <= |calls|
  {
    if n == i then 0 else CallsOf(calls, i, n - 1, key) + if calls[n - 1].key == key then 1 else 0
  }

  /** Before call i the key was never called, or not for the time a whole burst takes to come back. */
  ghost predicate Rested(r: Rate, calls: seq<Call>, i: nat, key: Key)
    requires i < |calls|
  {
    forall m | 0 <= m < i && calls[m].key == key :: calls[m].now + r.burst * r.every <= calls[i].now
  }

  /** A rested client has its whole burst, in tokens. */
  lemma RestedHasBurst(r: Rate, calls: seq<Call>, i: nat, key: Key)
    requires Run(r, calls) && i < |calls| && Rested(r, calls, i, key)
    ensures LevelAt(r, Remembering(r, calls, i), key, calls[i].now) == Tokens(r, r.burst)
  {
    TokensAreProduct(r, r.burst);
    CapFacts(r);
    LastCall(r, calls, i, key);
  }

  /** A remembered bucket was last touched by a call of its key. */
  lemma {:induction false} LastCall(r: Rate, calls: seq<Call>, n: nat, key: Key)
    requires Run(r, calls) && n <= |calls|
    ensures var u := Remembering(r, calls, n);
            && (key in u ==> 0 <= u[key].level <= Cap(r))
            && (key in u ==> exists m | 0 <= m < n :: calls[m].key == key && calls[m].now == u[key].last)
            && (key !in u ==> forall m | 0 <= m < n :: calls[m].key != key)
  {
    CapFacts(r);
    if n > 0 { LastCall(r, calls, n - 1, key); }
  }

  lemma {:induction false} TokensLeft(r: Rate, calls: seq<Call>, i: nat, n: nat, key: Key, c: nat)
    requires Run(r, calls) && i <= n < |calls| && Rested(r, calls, i, key)
    requires c == CallsOf(calls, i, n, key) <= r.burst
    ensures LevelAt(r, Remembering(r, calls, n), key, calls[n].now) >= Tokens(r, r.burst - c)
    decreases n
  {
    if n == i {
      RestedHasBurst(r, calls, i, key);
    } else {
      var before := CallsOf(calls, i, n - 1, key);
      TokensLeft(r, calls, i, n - 1, key, before);
      LastCall(r, calls, n - 1, key);
      TokensAreWhole(r, r.burst - before);
      LevelAfter(r, Remembering(r, calls, n - 1), calls[n - 1], key, calls[n].now);
    }
  }

  /** A call costs its key one token, and time costs nothing. */
  lemma LevelAfter(r: Rate, u: Table, c: Call, key: Key, at: int)
    requires 0 < r.every && c.now <= at && (key in u ==> 0 <= u[key].level <= Cap(r))
    ensures LevelAt(r, StepRemembering(r, u, c).0, key, at)
         >= LevelAt(r, u, key, c.now) - if c.key == key then r.every else 0
  {
    CapFacts(r);
  }

  /**
   A client that was never seen, or rested for a whole burst, has its first Burst calls
   admitted, however close together.
   */
  lemma BurstIsGranted(r: Rate, calls: seq<Call>, i: nat, j: nat)
    requires Run(r, calls) && i <= j < |calls| && Kept(calls, j + 1, calls[j].key)
    requires Rested(r, calls, i, calls[j].key) && CallsOf(calls, i, j, calls[j].key) < r.burst
    ensures AnswerAt(r, calls, j).Allowed?
  {
    var key := calls[j].key;
    var c := CallsOf(calls, i, j, key);
    TokensLeft(r, calls, i, j, key, c);
    TokensAreWhole(r, r.burst - c);
    ForgettingIsInvisible(r, calls, j);
  }

  /** A client that waits Every between its calls is always admitted. */
  lemma SteadyIsAdmitted(r: Rate, calls: seq<Call>, j: nat)
    requires Run(r, calls) && r.burst >= 1 && j < |calls| && Kept(calls, j + 1, calls[j].key)
    requires forall m | 0 <= m < j && calls[m].key == calls[j].key :: calls[m].now + r.every <= calls[j].now
    ensures AnswerAt(r, calls, j).Allowed?
  {
    CapFacts(r);
    LastCall(r, calls, j, calls[j].key);
    ForgettingIsInvisible(r, calls, j);
  }

  /** No one is told to wait longer than Every. */
  lemma WaitIsShort(r: Rate, calls: seq<Call>, i: nat)
    requires Run(r, calls) && i < |calls| && Kept(calls, i + 1, calls[i].key) && AnswerAt(r, calls, i).Wait?
    ensures 0 < AnswerAt(r, calls, i).time <= r.every
  {
    LastCall(r, calls, i, calls[i].key);
    CapFacts(r);
    ForgettingIsInvisible(r, calls, i);
  }

  /** Nobody is forgotten for real while some remembered client has its whole burst back. */
  lemma RefilledGoFirst(r: Rate, t: Table, key: Key, now: int, victims: set<Key>, k: Key)
    requires |t| <= r.maxClients && Evicts(r, t, key, now, victims)
    requires k in t && t[k].last < now && t[k].level + (now - t[k].last) >= r.burst * r.every
    ensures victims == {}
  {
    TokensAreProduct(r, r.burst);
    var limited := Limited(r, t, now);
    assert k !in limited;
    assert limited.Keys <= t.Keys - {k};
    SubsetIsNoLarger(limited.Keys, t.Keys - {k});
  }

  // ---- The wait ----

  /** When the bucket reaches one whole token. */
  function Deadline(r: Rate, b: Bucket): int { b.last + r.every - b.level }

  lemma {:induction false} DeadlineHolds(r: Rate, calls: seq<Call>, i: nat, j: nat, key: Key)
    requires Run(r, calls) && r.burst >= 1 && i < j <= |calls| && Kept(calls, j, key)
    requires calls[i].key == key && RememberingAnswer(r, calls, i).Wait?
    requires forall m | i < m < j && calls[m].key == key ::
        calls[m].now < calls[i].now + RememberingAnswer(r, calls, i).time
    ensures key in Remembering(r, calls, j)
    ensures var b := Remembering(r, calls, j)[key];
            b.level < r.every && Deadline(r, b) == calls[i].now + RememberingAnswer(r, calls, i).time
  {
    var deadline := calls[i].now + RememberingAnswer(r, calls, i).time;
    if j > i + 1 {
      DeadlineHolds(r, calls, i, j - 1, key);
      PrefixAgrees(r, calls, j - 1, key);
      Waits(r, Remembering(r, calls, j - 1), calls[j - 1], key, deadline);
    } else {
      RefusalSetsDeadline(r, Remembering(r, calls, i), calls[i]);
    }
  }

  lemma RefusalSetsDeadline(r: Rate, u: Table, c: Call)
    requires StepRemembering(r, u, c).1.Wait?
    ensures var (v, answer) := StepRemembering(r, u, c);
            c.key in v && v[c.key].level < r.every && Deadline(r, v[c.key]) == c.now + answer.time
  {
  }

  /** A call before the deadline is refused and leaves the deadline where it was. */
  lemma Waits(r: Rate, u: Table, c: Call, key: Key, deadline: int)
    requires 0 < r.every && r.burst >= 1
    requires key in u && u[key].level < r.every && Deadline(r, u[key]) == deadline && u[key].last <= c.now
    requires c.key == key ==> c.now < deadline
    ensures var v := StepRemembering(r, u, c).0;
            key in v && v[key].level < r.every && Deadline(r, v[key]) == deadline
  {
    CapFacts(r);
  }

  /**
   A refusal's wait is exact: with no other call of the key from then on at or
   after the time it names, the key's next call is admitted if and only if it
   comes at or after that time, however many refused calls came between.
   */
  lemma WaitIsExact(r: Rate, calls: seq<Call>, i: nat, j: nat)
    requires Run(r, calls) && r.burst >= 1 && i < j < |calls| && calls[j].key == calls[i].key
    requires Kept(calls, j + 1, calls[i].key) && AnswerAt(r, calls, i).Wait?
    requires forall m | i < m < j && calls[m].key == calls[i].key ::
        calls[m].now < calls[i].now + AnswerAt(r, calls, i).time
    ensures AnswerAt(r, calls, j).Allowed? <==> calls[j].now >= calls[i].now + AnswerAt(r, calls, i).time
  {
    CapFacts(r);
    ForgettingIsInvisible(r, calls, i);
    ForgettingIsInvisible(r, calls, j);
    DeadlineHolds(r, calls, i, j, calls[i].key);
    PrefixAgrees(r, calls, j, calls[i].key);
  }

  /** The burst must be at least one: without it every call is refused, at any time. */
  lemma NoBurstNoAdmission(r: Rate, calls: seq<Call>, i: nat)
    requires Run(r, calls) && r.burst == 0 && i < |calls| && Kept(calls, i + 1, calls[i].key)
    ensures AnswerAt(r, calls, i).Wait?
  {
    CapFacts(r);
    ForgettingIsInvisible(r, calls, i);
    if i > 0 { PrefixAgrees(r, calls, i, calls[i].key); }
  }

  // ---- The empty key in a run ----

  /** Three clients of a table for two, the empty key first, none of them refilled in between. */
  function EmptyKeyCalls(r: Rate): seq<Call> {
    [Call("", 0, {}), Call("a", 1, {}), Call("b", 2, {"a"})]
  }

  /**
   A run from the empty table in which the empty key is passed over: when the third
   client arrives both buckets are still limited, the empty key's is the older, and
   the loop, visiting it first, evicts the other.
   */
  lemma EmptyKeyOutlivesAnother(r: Rate)
    requires r.maxClients == 2 && r.burst >= 1 && r.every > 2
    ensures var calls := EmptyKeyCalls(r);
            var limited := Limited(r, After(r, calls, 2), 2);
            && Run(r, calls)
            && limited.Keys == {"", "a"} && HiddenByEmptyKey(limited)
            && IsOrder(["", "a"], limited) && Chosen(limited, ["", "a"]) == "a" && !IsLongestAgo(limited, "a")
            && calls[2].victims == {"a"}
            && After(r, calls, 3).Keys == {"", "b"}
  {
    EmptyKeyTables(r);
    var t2 := map["" := Bucket(Cap(r) - r.every, 0), "a" := Bucket(Cap(r) - r.every, 1)];
    assert t2.Keys == {"", "a"};
    assert Limited(r, t2, 2) == t2;
    PassesOverEmptyKey(t2);
    assert t2 - {"a"} == map["" := Bucket(Cap(r) - r.every, 0)];
  }

  lemma EmptyKeyTables(r: Rate)
    requires r.maxClients == 2 && r.burst >= 1 && r.every > 2
    ensures var t2 := map["" := Bucket(Cap(r) - r.every, 0), "a" := Bucket(Cap(r) - r.every, 1)];
            After(r, EmptyKeyCalls(r), 2) == t2 && |t2| == 2
    ensures Run(r, EmptyKeyCalls(r))
  {
    var calls := EmptyKeyCalls(r);
    CapFacts(r);
    var t1 := map["" := Bucket(Cap(r) - r.every, 0)];
    assert After(r, calls, 1) == t1;
    assert |t1| == |t1.Keys| == 1;
    var t2 := t1["a" := Bucket(Cap(r) - r.every, 1)];
    assert After(r, calls, 2) == t2;
    TwoKeys(t2, "", "a");
    assert Limited(r, t2, 2) == t2;
    assert forall i | 0 <= i < 3 :: LegalEviction(r, calls, i);
  }

  lemma PassesOverEmptyKey(t: Table)
    requires t.Keys == {"", "a"} && t[""].last < t["a"].last
    ensures HiddenByEmptyKey(t) && IsOrder(["", "a"], t) && Chosen(t, ["", "a"]) == "a" && !IsLongestAgo(t, "a")
  {
    assert |t| == |t.Keys| == 2;
    assert ["", "a"][..1] == [""];
  }

  // ---- Longest ago is not closest to full ----

  /** Two attempts of one client, then one of another, then a newcomer: the table holds two. */
  function UnevenCalls(): seq<Call> {
    [Call("a", 0, {}), Call("a", 0, {}), Call("b", 1, {}), Call("c", 2, {"a"})]
  }

  /**
   A run on ordinary keys in which the bucket seen longest ago, and evicted, is not
   the closest to full: it was drained twice, the other once.
   */
  lemma LongestAgoIsNotClosestToFull(r: Rate)
    requires r.maxClients == 2 && r.burst == 2 && r.every > 2
    ensures var calls := UnevenCalls();
            var limited := Limited(r, After(r, calls, 3), 2);
            && Run(r, calls)
            && limited.Keys == {"a", "b"} && IsLongestAgo(limited, "a")
            && Refilled(r, limited["a"], 2) < Refilled(r, limited["b"], 2)
            && calls[3].victims == {"a"} && LongestAgo(limited, calls[3].victims)
  {
    UnevenTables(r);
    var t3 := map["a" := Bucket(0, 0), "b" := Bucket(r.every, 1)];
    assert t3.Keys == {"a", "b"};
    assert Limited(r, t3, 2) == t3;
  }

  lemma UnevenTables(r: Rate)
    requires r.maxClients == 2 && r.burst == 2 && r.every > 2
    ensures Cap(r) == r.every + r.every
    ensures After(r, UnevenCalls(), 3) == map["a" := Bucket(0, 0), "b" := Bucket(r.every, 1)]
    ensures Run(r, UnevenCalls())
  {
    var calls := UnevenCalls();
    var t1, t2 := map["a" := Bucket(r.every, 0)], map["a" := Bucket(0, 0)];
    var t3 := map["a" := Bucket(0, 0), "b" := Bucket(r.every, 1)];
    UnevenSteps(r);
    assert After(r, calls, 0) == map[];
    assert After(r, calls, 1) == t1;
    assert After(r, calls, 2) == t2;
    assert After(r, calls, 3) == t3;
    assert LegalEviction(r, calls, 0) && LegalEviction(r, calls, 1);
    assert LegalEviction(r, calls, 2) && LegalEviction(r, calls, 3);
    assert forall i | 0 <= i < 4 :: LegalEviction(r, calls, i);
  }

  lemma UnevenSteps(r: Rate)
    requires r.maxClients == 2 && r.burst == 2 && r.every > 2
    ensures Cap(r) == r.every + r.every
    ensures var calls := UnevenCalls();
            var t1, t2 := map["a" := Bucket(r.every, 0)], map["a" := Bucket(0, 0)];
            var t3 := map["a" := Bucket(0, 0), "b" := Bucket(r.every, 1)];
            && Evicts(r, map[], "a", 0, {}) && Step(r, map[], calls[0]).0 == t1
            && Evicts(r, t1, "a", 0, {}) && Step(r, t1, calls[1]).0 == t2
            && Evicts(r, t2, "b", 1, {}) && Step(r, t2, calls[2]).0 == t3
            && Evicts(r, t3, "c", 2, {"a"})
  {
    var calls := UnevenCalls();
    TwoTokens(r);
    var t1, t2 := map["a" := Bucket(r.every, 0)], map["a" := Bucket(0, 0)];
    var t3 := map["a" := Bucket(0, 0), "b" := Bucket(r.every, 1)];
    WithoutEviction(r, map[], calls[0]);
    WithoutEviction(r, t1, calls[1]);
    assert |t2| == |t2.Keys| == 1;
    WithoutEviction(r, t2, calls[2]);
    TwoKeys(t3, "a", "b");
    assert Limited(r, t3, 2) == t3;
  }

  lemma TwoTokens(r: Rate)
    requires r.burst == 2
    ensures Cap(r) == r.every + r.every
  {
    assert Tokens(r, 0) == 0 && Tokens(r, 1) == r.every;
  }

  /** A step for which there is room, or which finds its bucket. */
  lemma WithoutEviction(r: Rate, t: Table, c: Call)
    requires c.victims == {} && (c.key in t || |t| < r.maxClients)
    ensures Evicts(r, t, c.key, c.now, c.victims)
    ensures Step(r, t, c).0 == t[c.key := Attempt(r, Known(r, t, c.key, c.now), c.now).0]
  {
  }

  lemma TwoKeys(t: Table, a: Key, b: Key)
    requires t.Keys == {a, b} && a != b
    ensures |t| == 2
  {
    assert |t.Keys| == 2;
  }

  /**
   Of two limited buckets the closer to full is the one whose deadline is the earlier,
   whenever each was last seen.
   */
  lemma CloserToFull(r: Rate, a: Bucket, b: Bucket, now: int)
    requires a.last <= now && b.last <= now
    requires Refilled(r, a, now) < Cap(r) && Refilled(r, b, now) < Cap(r)
    ensures Refilled(r, a, now) >= Refilled(r, b, now) <==> Deadline(r, a) <= Deadline(r, b)
  {
  }

  /**
   The bucket seen longest ago is the closest to full exactly when no other limited bucket
   has an earlier deadline.
   */
  lemma ClosestToFullExactly(r: Rate, t: Table, now: int, k: Key)
    requires IsLongestAgo(Limited(r, t, now), k) && forall o | o in t :: t[o].last <= now
    ensures var limited := Limited(r, t, now);
            (forall o | o in limited :: Refilled(r, limited[o], now) <= Refilled(r, limited[k], now))
            <==> (forall o | o in limited :: Deadline(r, limited[k]) <= Deadline(r, limited[o]))
  {
    var limited := Limited(r, t, now);
    forall o | o in limited
      ensures Refilled(r, limited[k], now) >= Refilled(r, limited[o], now) <==>
          Deadline(r, limited[k]) <= Deadline(r, limited[o])
    {
      CloserToFull(r, limited[k], limited[o], now);
    }
  }
}
