/**
 The price service as a state machine over tables of rates: manual edits, catalogue
 checks with a conditional fetch between their two halves, restarts, and failed or
 cancelled steps, in any order.
 */
module PriceCatalog {
  import opened Options
  import opened PriceList

  /** HTTP cache validators; the empty ones are never sent. */
  datatype Validators = Validators(etag: string, lastModified: string)

  const NO_VALIDATORS := Validators("", "")

  datatype CheckState = CheckState(validators: Validators, fingerprint: string, checkedAt: int, changedAt: int,
      lastError: string)

  const NO_STATE := CheckState(NO_VALIDATORS, "", 0, 0, "")

  /** One answer of the catalogue. */
  datatype Fetch = FetchFailed(why: string) | Unchanged | Full(prices: seq<ModelPrice>, validators: Validators)

  /**
   What is in force in memory and what is stored. source is the fingerprint of the
   configured source, absent when the catalogue is disabled; since is what the
   check in progress sent.
   */
  datatype World = World(
    source: Option<string>,
    manual: RateTable, catalog: RateTable, state: CheckState, table: RateTable, since: Option<Validators>,
    dbManual: RateTable, dbCatalog: RateTable, dbState: CheckState)

  datatype Event =
    | Restart(source: Option<string>)
    | Replace(list: seq<ModelPrice>, stored: bool)
    | Begin
    | Finish(document: string, fetch: Fetch, now: int, cancelled: bool, storeFails: bool, noteFails: bool)

  /** What a check sends: nothing when the validators were stored under another fingerprint. */
  function Since(state: CheckState, fingerprint: string): Validators {
    if state.fingerprint == fingerprint then state.validators else NO_VALIDATORS
  }

  predicate Refused(fetch: Fetch) {
    fetch.FetchFailed? || (fetch.Full? && !Acceptable(fetch.prices))
  }

  predicate Succeeds(e: Event)
    requires e.Finish?
  {
    !Refused(e.fetch) && !e.storeFails
  }

  const NOT_STORED := "the catalog could not be stored"
  const NOT_ACCEPTED := "the fetched catalog was refused"

  function Noted(w: World, why: string, noteFails: bool): World {
    var state := w.state.(lastError := why);
    w.(state := state, dbState := if noteFails then w.dbState else state)
  }

  function Checked(w: World, fetch: Fetch, now: int): CheckState
    requires w.source.Some?
  {
    var state := w.state.(checkedAt := now, lastError := "");
    match fetch
    case Full(prices, validators) =>
      var current := state.(validators := validators, fingerprint := w.source.value);
      if RatesOf(prices) != w.catalog then current.(changedAt := now) else current
    case _ => state
  }

  /** Why an unsuccessful check failed. */
  function Reason(fetch: Fetch): string {
    if !Refused(fetch) then NOT_STORED else if fetch.FetchFailed? then fetch.why else NOT_ACCEPTED
  }

  function Succeeded(w: World, fetch: Fetch, now: int): World
    requires w.source.Some?
  {
    var state := Checked(w, fetch, now);
    var u := w.(state := state, dbState := state);
    if fetch.Full? && RatesOf(fetch.prices) != w.catalog then InForce(u, RatesOf(fetch.prices)) else u
  }

  function InForce(w: World, rates: RateTable): World {
    w.(catalog := rates, dbCatalog := rates, table := Effective(w.manual, rates))
  }

  function Finished(w: World, e: Event): World
    requires e.Finish? && w.source.Some?
  {
    var idle := w.(since := None);
    if Succeeds(e) then Succeeded(idle, e.fetch, e.now)
    else if e.cancelled then idle
    else Noted(idle, Reason(e.fetch), e.noteFails)
  }

  /** A failed, refused or cancelled check changes neither prices nor validators, in memory or stored. */
  lemma UnsuccessfulCheckChangesNothing(w: World, e: Event)
    requires e.Finish? && w.source.Some? && !Succeeds(e)
    ensures var t := Finished(w, e);
            && t == w.(since := None, state := t.state, dbState := t.dbState)
            && t.state == w.state.(lastError := t.state.lastError)
            && (t.dbState == w.dbState || t.dbState == t.state)
            && (e.cancelled ==> t == w.(since := None))
  {
  }

  function Next(w: World, e: Event): World
    requires e.Finish? || e.Begin? ==> w.source.Some?
  {
    match e
    case Restart(source) =>
      var catalog := if source.Some? then w.dbCatalog else map[];
      World(source, w.dbManual, catalog, if source.Some? then w.dbState else NO_STATE,
            Effective(w.dbManual, catalog), None, w.dbManual, w.dbCatalog, w.dbState)
    case Replace(list, stored) =>
      if ValidList(list) && stored then
        w.(manual := RatesOf(list), dbManual := RatesOf(list), table := Effective(RatesOf(list), w.catalog))
      else w
    case Begin => w.(since := Some(Since(w.state, w.source.value)))
    case Finish(_, _, _, _, _, _) => Finished(w, e)
  }

  // ---- The catalogue's origin ----

  /** What a document prices to under a fingerprint, and its validators. */
  datatype Origin = Origin(parse: (string, string) -> RateTable, validators: string -> Validators)

  /** Validators that can be sent identify the document. */
  ghost predicate Identifying(o: Origin) {
    forall d, e :: o.validators(d) == o.validators(e) != NO_VALIDATORS ==>
      forall fingerprint :: o.parse(fingerprint, d) == o.parse(fingerprint, e)
  }

  /** The source answers about its current document, and Unchanged only for that document's validators. */
  ghost predicate Truthful(o: Origin, fingerprint: string, document: string, since: Validators, fetch: Fetch) {
    match fetch
    case FetchFailed(_) => true
    case Unchanged => since != NO_VALIDATORS && since == o.validators(document)
    case Full(prices, validators) =>
      RatesOf(prices) == o.parse(fingerprint, document) && validators == o.validators(document)
  }

  /** Checks run one at a time, against a truthful source. */
  ghost predicate Legal(o: Origin, w: World, e: Event) {
    match e
    case Begin => w.source.Some? && w.since.None?
    case Finish(document, fetch, _, _, _, _) =>
      w.source.Some? && w.since.Some? && Truthful(o, w.source.value, document, w.since.value, fetch)
    case _ => true
  }

  ghost predicate LegalRun(o: Origin, w: World, run: seq<Event>)
    decreases |run|
  {
    run == [] || (Legal(o, w, run[0]) && LegalRun(o, Next(w, run[0]), run[1..]))
  }

  ghost function After(o: Origin, w: World, run: seq<Event>): World
    requires LegalRun(o, w, run)
    decreases |run|
  {
    if run == [] then w else After(o, Next(w, run[0]), run[1..])
  }

  /** A new deployment, before its first boot. */
  const EMPTY := World(None, map[], map[], NO_STATE, map[], None, map[], map[], NO_STATE)

  // ---- The invariant ----

  /** Stored validators that can be sent are those of a document whose rates are the stored ones. */
  ghost predicate Described(o: Origin, catalog: RateTable, state: CheckState) {
    state.validators != NO_VALIDATORS ==>
      exists d :: o.validators(d) == state.validators && catalog == o.parse(state.fingerprint, d)
  }

  ghost predicate Inv(o: Origin, w: World) {
    && w.table == Effective(w.manual, w.catalog)
    && w.manual == w.dbManual
    && (w.source.None? ==> w.catalog == map[] && w.since.None?)
    && (w.source.Some? ==>
          w.catalog == w.dbCatalog
          && w.state.validators == w.dbState.validators && w.state.fingerprint == w.dbState.fingerprint)
    && Described(o, w.dbCatalog, w.dbState)
    && (w.since.Some? ==> w.source.Some? && w.since.value == Since(w.state, w.source.value))
  }

  lemma UnchangedIsCurrent(o: Origin, w: World, document: string)
    requires Identifying(o) && Inv(o, w) && w.source.Some? && w.since.Some?
    requires Truthful(o, w.source.value, document, w.since.value, Unchanged)
    ensures w.catalog == o.parse(w.source.value, document)
  {
    var d :| o.validators(d) == w.state.validators && w.dbCatalog == o.parse(w.state.fingerprint, d);
  }

  /** Event by event: the invariant is kept, and a finished check has the effect promised. */
  lemma EventKeeps(o: Origin, w: World, e: Event)
    requires Identifying(o) && Inv(o, w) && Legal(o, w, e)
    ensures Inv(o, Next(w, e))
    ensures e.Finish? && Succeeds(e) ==> Next(w, e).catalog == o.parse(w.source.value, e.document)
  {
    if e.Finish? && Succeeds(e) {
      if e.fetch.Unchanged? { UnchangedIsCurrent(o, w, e.document); }
    }
  }

  lemma {:induction false} RunKeeps(o: Origin, w: World, run: seq<Event>)
    requires Identifying(o) && Inv(o, w) && LegalRun(o, w, run)
    ensures Inv(o, After(o, w, run))
    decreases |run|
  {
    if run != [] {
      EventKeeps(o, w, run[0]);
      RunKeeps(o, Next(w, run[0]), run[1..]);
    }
  }

  // ---- Main results ----

  /**
   At every moment of every run the published table is the effective one: manual rates, else
   the catalogue's, else none.
   */
  lemma TableIsEffective(o: Origin, run: seq<Event>, k: Key)
    requires Identifying(o) && LegalRun(o, EMPTY, run)
    ensures var w := After(o, EMPTY, run);
            && (k in w.manual ==> k in w.table && w.table[k] == w.manual[k])
            && (k !in w.manual && k in w.catalog ==> k in w.table && w.table[k] == w.catalog[k])
            && (k !in w.manual && k !in w.catalog ==> k !in w.table)
            && w.catalog == (if w.source.Some? then w.dbCatalog else map[]) && w.manual == w.dbManual
  {
    RunKeeps(o, EMPTY, run);
  }

  /**
   After each successful check the rates in force are those of a full fetch of the
   document it was answered about, whatever failed, was edited or restarted before.
   */
  lemma SuccessfulCheckIsCurrent(o: Origin, run: seq<Event>, e: Event)
    requires Identifying(o) && LegalRun(o, EMPTY, run) && Legal(o, After(o, EMPTY, run), e) && e.Finish? && Succeeds(e)
    ensures var w := After(o, EMPTY, run);
            var t := Next(w, e);
            && t.catalog == t.dbCatalog == o.parse(w.source.value, e.document)
            && t.table == Effective(w.manual, o.parse(w.source.value, e.document))
            && t.state == t.dbState && t.state.checkedAt == e.now && t.state.lastError == ""
            && t.state.changedAt == (if t.catalog == w.catalog then w.state.changedAt else e.now)
  {
    RunKeeps(o, EMPTY, run);
    EventKeeps(o, After(o, EMPTY, run), e);
  }

  /** An unsuccessful check that was not cancelled leaves its reason, in memory and unless that fails in storage. */
  lemma FailureLeavesItsReason(w: World, e: Event)
    requires e.Finish? && w.source.Some? && !Succeeds(e) && !e.cancelled
    ensures var t := Next(w, e);
            && t.state.lastError == (match e.fetch
                                     case FetchFailed(why) => why
                                     case Full(prices, _) => if !Acceptable(prices) then NOT_ACCEPTED else NOT_STORED
                                     case Unchanged => NOT_STORED)
            && (!e.noteFails ==> t.dbState == t.state)
  {
  }

  // ---- What a check sends ----

  /**
   Anything that may happen between a full answer and the next one: edits, restarts on the
   same source, checks that fail or find nothing new.
   */
  predicate KeepsAnswer(e: Event, source: string) {
    match e
    case Restart(s) => s == Some(source)
    case Finish(_, fetch, _, _, storeFails, _) => !fetch.Full? || !Acceptable(fetch.prices) || storeFails
    case _ => true
  }

  /** The stored answer's validators are remembered, in memory and in storage. */
  predicate Remembers(w: World, v: Validators, source: string) {
    && w.source == Some(source)
    && w.state.validators == v && w.state.fingerprint == source
    && w.dbState.validators == v && w.dbState.fingerprint == source
  }

  lemma EventKeepsAnswer(w: World, e: Event, v: Validators, source: string)
    requires Remembers(w, v, source) && KeepsAnswer(e, source)
    ensures Remembers(Next(w, e), v, source)
  {
  }

  lemma {:induction false} AnswerIsRemembered(o: Origin, w: World, run: seq<Event>, v: Validators, source: string)
    requires LegalRun(o, w, run) && Remembers(w, v, source)
    requires forall e | e in run :: KeepsAnswer(e, source)
    ensures Remembers(After(o, w, run), v, source)
    decreases |run|
  {
    if run != [] {
      assert run[0] in run;
      EventKeepsAnswer(w, run[0], v, source);
      AnswerIsRemembered(o, Next(w, run[0]), run[1..], v, source);
    }
  }

  /**
   The next check sends the validators of the last full answer it stored, whatever
   was edited, restarted on the same source or failed in between.
   */
  lemma LastValidatorsAreSent(o: Origin, w: World, e: Event, run: seq<Event>)
    requires e.Finish? && e.fetch.Full? && w.source.Some? && Succeeds(e)
    requires LegalRun(o, Next(w, e), run) && forall x | x in run :: KeepsAnswer(x, w.source.value)
    ensures var t := After(o, Next(w, e), run);
            t.source == w.source && Next(t, Begin).since == Some(e.fetch.validators)
  {
    AnswerIsRemembered(o, Next(w, e), run, e.fetch.validators, w.source.value);
  }

  /** After a restart on another source nothing is sent until it has answered. */
  lemma OtherSourceSendsNothing(w: World, source: string)
    requires w.dbState.fingerprint != source
    ensures Next(Next(w, Restart(Some(source))), Begin).since == Some(Validators("", ""))
  {
  }
}
