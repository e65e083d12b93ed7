/**
 The price service as the source keeps it: lists in memory and in two
 repositories, and the table the effective list is published to. Each method is
 one hold of the service's lock; a failed repository call wrote nothing, and
 which calls fail is a parameter.
 */
module PriceService {
  import opened Options
  import opened PriceList
  import opened PriceTable
  import opened PriceCatalog

  /** Stored rows: each key once, a row whose rates did not change keeping its time. */
  class PriceRepo {
    var stored: seq<ModelPrice>

    ghost predicate Valid()
      reads this
    {
      Distinct(stored)
    }

    constructor ()
      ensures stored == []
    {
      stored := [];
    }

    method Replace(prices: seq<ModelPrice>, at: int)
      requires Valid() && Distinct(prices)
      modifies this
      ensures Valid()
      ensures stored == Restamped(old(stored), prices, at) && RatesOf(stored) == RatesOf(prices)
      ensures forall i | 0 <= i < |stored| :: RightTime(old(stored), stored[i], at)
    {
      RestampedRates(stored, prices, at);
      forall i | 0 <= i < |prices| ensures RightTime(stored, Restamped(stored, prices, at)[i], at) {
        TimesAreKept(stored, prices, at, i);
      }
      stored := Restamped(stored, prices, at);
    }
  }

  function Stamp(rows: seq<ModelPrice>, mp: ModelPrice, at: int): int {
    if rows == [] then at
    else if rows[0].key == mp.key && rows[0].rates == mp.rates then rows[0].updatedAt
    else Stamp(rows[1..], mp, at)
  }

  function Restamped(rows: seq<ModelPrice>, prices: seq<ModelPrice>, at: int): (r: seq<ModelPrice>)
    ensures |r| == |prices| && forall i | 0 <= i < |r| :: r[i].key == prices[i].key && r[i].rates == prices[i].rates
  {
    if prices == [] then []
    else
      var last := prices[|prices| - 1];
      Restamped(rows, prices[..|prices| - 1], at) + [last.(updatedAt := Stamp(rows, last, at))]
  }

  /** A row whose key and rates were already stored has the stored row's time; any other row has the new one. */
  ghost predicate RightTime(rows: seq<ModelPrice>, mp: ModelPrice, at: int) {
    && (forall j | 0 <= j < |rows| && rows[j].key == mp.key && rows[j].rates == mp.rates ::
        mp.updatedAt == rows[j].updatedAt)
    && ((forall j | 0 <= j < |rows| :: rows[j].key != mp.key || rows[j].rates != mp.rates) ==> mp.updatedAt == at)
  }

  lemma {:induction false} StampIsRight(rows: seq<ModelPrice>, mp: ModelPrice, at: int)
    requires Distinct(rows)
    ensures RightTime(rows, mp.(updatedAt := Stamp(rows, mp, at)), at)
  {
    if rows != [] && (rows[0].key != mp.key || rows[0].rates != mp.rates) {
      StampIsRight(rows[1..], mp, at);
      forall j | 0 <= j < |rows| && rows[j].key == mp.key && rows[j].rates == mp.rates
        ensures Stamp(rows, mp, at) == rows[j].updatedAt
      {
        assert rows[1..][j - 1] == rows[j];
      }
      if forall j | 0 <= j < |rows| :: rows[j].key != mp.key || rows[j].rates != mp.rates {
        forall j | 0 <= j < |rows[1..]| ensures rows[1..][j].key != mp.key || rows[1..][j].rates != mp.rates {
          assert rows[1..][j] == rows[j + 1];
        }
      }
    }
  }

  /** Replacing a list stamps every row right, whatever the order. */
  lemma {:induction false} TimesAreKept(rows: seq<ModelPrice>, prices: seq<ModelPrice>, at: int, i: nat)
    requires Distinct(rows) && i < |prices|
    ensures RightTime(rows, Restamped(rows, prices, at)[i], at)
  {
    var n := |prices| - 1;
    if i == n {
      StampIsRight(rows, prices[n], at);
    } else {
      TimesAreKept(rows, prices[..n], at, i);
    }
  }

  lemma {:induction false} RestampedRates(rows: seq<ModelPrice>, prices: seq<ModelPrice>, at: int)
    ensures RatesOf(Restamped(rows, prices, at)) == RatesOf(prices)
  {
    if prices != [] {
      var r := Restamped(rows, prices, at);
      assert r[..|r| - 1] == Restamped(rows, prices[..|prices| - 1], at);
      RestampedRates(rows, prices[..|prices| - 1], at);
    }
  }

  /** Which calls of a manual replacement fail: storing the list, reading it back, auditing. */
  datatype Faults = Faults(store: bool, readBack: bool, audit: bool)

  datatype Outcome = Ok | Forbidden | InvalidInput(bad: Invalid) | Failed | NotReadBack | NotAudited

  class Service {
    const source: Option<string>
    const repo: PriceRepo
    const catalogRepo: PriceRepo
    const sink: PriceTable
    var manual: seq<ModelPrice>
    var catalogPrices: seq<ModelPrice>
    var state: CheckState
    var storedState: CheckState
    var since: Option<Validators>

    ghost predicate Valid()
      reads this, repo, catalogRepo, sink
    {
      && repo != catalogRepo
      && repo.Valid() && catalogRepo.Valid()
      && Distinct(manual) && Distinct(catalogPrices)
      && sink.table.Some?
    }

    /** What is in force and what is stored, as tables. */
    ghost function View(): World
      requires sink.table.Some?
      reads this, repo, catalogRepo, sink
    {
      World(source, RatesOf(manual), RatesOf(catalogPrices), state, sink.table.value, since,
            RatesOf(repo.stored), RatesOf(catalogRepo.stored), storedState)
    }

    /** A service just booted: the stored lists are loaded and the effective one is published. */
    constructor Load(source: Option<string>, repo: PriceRepo, catalogRepo: PriceRepo, storedState: CheckState,
        sink: PriceTable)
      requires repo != catalogRepo && repo.Valid() && catalogRepo.Valid()
      modifies sink
      ensures Valid() && this.source == source && this.repo == repo && this.catalogRepo == catalogRepo &&
          this.sink == sink
      ensures forall w: World | w.dbManual == RatesOf(repo.stored) && w.dbCatalog == RatesOf(catalogRepo.stored)
                                && w.dbState == storedState :: View() == Next(w, Restart(source))
    {
      this.source, this.repo, this.catalogRepo, this.sink := source, repo, catalogRepo, sink;
      this.storedState, since := storedState, None;
      manual := repo.stored;
      catalogPrices := if source.Some? then catalogRepo.stored else [];
      state := if source.Some? then storedState else NO_STATE;
      new;
      Publish();
    }

    /** The effective list handed to the table. */
    method Publish()
      requires Distinct(manual) && Distinct(catalogPrices)
      modifies sink
      ensures sink.table == Some(Effective(RatesOf(manual), RatesOf(catalogPrices)))
    {
      var entries := Entries(catalogPrices, manual);
      MergedIsEffective(entries, catalogPrices, manual);
      sink.SetPrices(PricesOf(entries));
    }

    method Get(admin: bool) returns (entries: Option<seq<Entry>>)
      requires Valid()
      ensures entries.Some? <==> admin
      ensures entries.Some? ==> IsMerged(entries.value, catalogPrices, manual)
    {
      if !admin { return None; }
      var list := Entries(catalogPrices, manual);
      return Some(list);
    }

    /** Replace makes list the whole manual list, whatever fails after it is stored. */
    method Replace(admin: bool, list: seq<ModelPrice>, now: int, faults: Faults) returns (r: Outcome)
      requires Valid()
      modifies this`manual, repo, sink
      ensures Valid()
      ensures r == Forbidden <==> !admin
      ensures r.InvalidInput? <==> admin && !ValidList(list)
      ensures r.InvalidInput? ==> NamesFault(list, r.bad)
      ensures admin && ValidList(list) ==>
                r == if faults.store then Failed else if faults.readBack then NotReadBack
                     else if faults.audit then NotAudited else Ok
      ensures View() == if admin then Next(old(View()), PriceCatalog.Replace(list, !faults.store)) else old(View())
    {
      if !admin { return Forbidden; }
      var bad := ValidatePrices(list);
      if bad.Some? { return InvalidInput(bad.value); }
      if faults.store { return Failed; }
      StoreManual(list, now);
      if faults.readBack { return NotReadBack; }
      manual := repo.stored;
      return if faults.audit then NotAudited else Ok;
    }

    /** The table gets the list as submitted: it is what was stored. */
    method StoreManual(list: seq<ModelPrice>, now: int)
      requires Valid() && Distinct(list)
      modifies this`manual, repo, sink
      ensures Valid()
      ensures manual == list && RatesOf(repo.stored) == RatesOf(list)
      ensures View() == old(View()).(manual := RatesOf(list), dbManual := RatesOf(list),
                                     table := Effective(RatesOf(list), RatesOf(catalogPrices)))
    {
      repo.Replace(list, now);
      manual := list;
      Publish();
    }

    /** The first half of a check: what to send, decided under the lock. */
    method BeginCheck() returns (sent: Validators)
      requires Valid() && source.Some? && since.None?
      modifies this`since
      ensures Valid() && View() == Next(old(View()), Begin) && since == Some(sent)
    {
      sent := if state.fingerprint != source.value then NO_VALIDATORS else state.validators;
      since := Some(sent);
    }

    /**
     The second half: what the fetch found is applied, stored and published, or
     noted as a failure. document is the one the source answered about.
     */
    method FinishCheck(fetch: Fetch, now: int, cancelled: bool, storeFails: bool, noteFails: bool, readBackFails: bool,
                       ghost document: string)
      returns (done: bool)
      requires Valid() && source.Some? && since.Some?
      modifies this`catalogPrices, this`state, this`storedState, this`since, catalogRepo, sink
      ensures Valid()
      ensures View() == Next(old(View()), Finish(document, fetch, now, cancelled, storeFails, noteFails))
      ensures done <==> !Refused(fetch) && !storeFails
    {
      since := None;
      ghost var idle := View();
      var why := NOT_STORED;
      var refused := fetch.FetchFailed?;
      if fetch.FetchFailed? {
        why := fetch.why;
      } else if fetch.Full? {
        var refusal := AcceptCatalog(fetch.prices);
        if refusal.Some? { refused, why := true, NOT_ACCEPTED; }
      }
      assert refused == Refused(fetch) && why == Reason(fetch);
      done := false;
      if !refused {
        done := RecordSuccess(fetch, now, storeFails, readBackFails);
      }
      if done {
        assert View() == Succeeded(idle, fetch, now);
      } else {
        assert View() == idle;
        if !cancelled { RecordFailure(why, noteFails); }
      }
    }

    method RecordFailure(why: string, noteFails: bool)
      requires Valid()
      modifies this`state, this`storedState
      ensures Valid() && View() == Noted(old(View()), why, noteFails)
    {
      state := state.(lastError := why);
      if !noteFails { storedState := state; }
    }

    /** Stores the check, and the prices when their rates changed. */
    method RecordSuccess(fetch: Fetch, now: int, storeFails: bool, readBackFails: bool) returns (ok: bool)
      requires Valid() && source.Some? && !Refused(fetch)
      requires fetch.Full? ==> Distinct(fetch.prices)
      modifies this`catalogPrices, this`state, this`storedState, catalogRepo, sink
      ensures Valid() && ok == !storeFails
      ensures View() == if storeFails then old(View()) else Succeeded(old(View()), fetch, now)
    {
      ghost var before := View();
      var next := state.(checkedAt := now, lastError := "");
      var changed := false;
      if fetch.Full? {
        next := next.(validators := fetch.validators, fingerprint := source.value);
        changed := Differs(fetch.prices);
      }
      assert changed == (fetch.Full? && RatesOf(fetch.prices) != before.catalog);
      if changed {
        next := next.(changedAt := now);
      }
      assert next == Checked(before, fetch, now);
      if storeFails { return false; }
      storedState, state := next, next;
      if changed { PutInForce(fetch.prices, now, readBackFails); }
      return true;
    }

    method Differs(prices: seq<ModelPrice>) returns (changed: bool)
      requires Valid() && Distinct(prices)
      ensures changed <==> RatesOf(prices) != RatesOf(catalogPrices)
    {
      var same := SameRates(catalogPrices, prices);
      MatchingIsEquality(catalogPrices, prices);
      changed := !same;
    }

    /** What was stored is published before the read-back. */
    method PutInForce(prices: seq<ModelPrice>, now: int, readBackFails: bool)
      requires Valid() && source.Some? && Distinct(prices)
      modifies this`catalogPrices, catalogRepo, sink
      ensures Valid()
      ensures View() == InForce(old(View()), RatesOf(prices))
    {
      catalogRepo.Replace(prices, now);
      catalogPrices := prices;
      Publish();
      if !readBackFails { catalogPrices := catalogRepo.stored; }
    }
  }
}
